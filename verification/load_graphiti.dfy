/** The per-collection totals the Graphiti loader reports over a batch of JSON payloads. */
module LoadGraphiti {
  import opened Wrappers

  /** A top-level payload value as far as counting is concerned: something with a length (a list, a string,
      an object) or a scalar that has none. */
  datatype Entry = Sized(len: nat) | Unsized

  /** One decoded payload file: its top-level keys. */
  type Blob = map<string, Entry>

  /** The counted collections, in the order the loader checks them. */
  const Collections: seq<string> := ["documents", "versions", "clauses", "recommendations", "decisions"]

  datatype Summary = Summary(documents: nat, versions: nat, clauses: nat, recommendations: nat, decisions: nat) {
    function Plus(o: Summary): Summary {
      Summary(documents + o.documents, versions + o.versions, clauses + o.clauses,
              recommendations + o.recommendations, decisions + o.decisions)
    }

    function Get(key: string): nat {
      if key == "documents" then documents
      else if key == "versions" then versions
      else if key == "clauses" then clauses
      else if key == "recommendations" then recommendations
      else decisions
    }
  }

  const Zero := Summary(0, 0, 0, 0, 0)

  /** `len()` applied to a value without a length. */
  datatype LoadError = TypeError(key: string)

  /** How much `blob` adds to the total for `key`: its length when present, nothing when absent. */
  function SizeAt(blob: Blob, key: string): nat {
    if key in blob && blob[key].Sized? then blob[key].len else 0
  }

  /** Every counted key the blob has holds a value with a length. */
  predicate WellSized(blob: Blob) {
    forall k :: k in Collections && k in blob ==> blob[k].Sized?
  }

  /** The first counted key of the blob whose value has no length. */
  function BadKey(blob: Blob): (r: Option<string>)
    ensures r.None? <==> WellSized(blob)
    ensures r.Some? ==> r.value in Collections && r.value in blob && blob[r.value].Unsized?
  {
    if "documents" in blob && blob["documents"].Unsized? then Some("documents")
    else if "versions" in blob && blob["versions"].Unsized? then Some("versions")
    else if "clauses" in blob && blob["clauses"].Unsized? then Some("clauses")
    else if "recommendations" in blob && blob["recommendations"].Unsized? then Some("recommendations")
    else if "decisions" in blob && blob["decisions"].Unsized? then Some("decisions")
    else None
  }

  /** The reference total of one collection over a batch. */
  function Total(payloads: seq<Blob>, key: string): nat {
    if payloads == [] then 0 else Total(payloads[..|payloads| - 1], key) + SizeAt(payloads[|payloads| - 1], key)
  }

  /** The loader's loop: counts each blob in turn, stopping at the first value without a length. */
  method SummarizePayloads(payloads: seq<Blob>) returns (r: Result<Summary, LoadError>)
    ensures r.Ok? <==> forall i :: 0 <= i < |payloads| ==> WellSized(payloads[i])
    ensures r.Ok? ==> forall k :: k in Collections ==> r.value.Get(k) == Total(payloads, k)
    ensures r.Err? ==> exists i :: 0 <= i < |payloads| && BadKey(payloads[i]) == Some(r.error.key)
                                   && forall j :: 0 <= j < i ==> WellSized(payloads[j])
  {
    var summary := Zero;
    for n := 0 to |payloads|
      invariant forall i :: 0 <= i < n ==> WellSized(payloads[i])
      invariant forall k :: k in Collections ==> summary.Get(k) == Total(payloads[..n], k)
    {
      var blob := payloads[n];
      assert payloads[..n + 1][..n] == payloads[..n];
      match BadKey(blob)
      case Some(k) =>
        return Err(TypeError(k));
      case None =>
        summary := summary.Plus(Summary(SizeAt(blob, "documents"), SizeAt(blob, "versions"), SizeAt(blob, "clauses"),
                                        SizeAt(blob, "recommendations"), SizeAt(blob, "decisions")));
    }
    assert payloads[..|payloads|] == payloads;
    return Ok(summary);
  }

  /** Totals are additive over concatenated batches. */
  lemma {:induction false} TotalAppend(a: seq<Blob>, b: seq<Blob>, key: string)
    ensures Total(a + b, key) == Total(a, key) + Total(b, key)
    decreases |b|
  {
    if b == [] {
      assert a + b == a;
    } else {
      var b' := b[..|b| - 1];
      assert (a + b)[..|a + b| - 1] == a + b';
      assert (a + b)[|a + b| - 1] == b[|b| - 1];
      TotalAppend(a, b', key);
    }
  }

  /** A batch made only of blobs without the counted keys contributes nothing. */
  lemma {:induction false} TotalOfUnrelated(payloads: seq<Blob>, key: string)
    requires forall i :: 0 <= i < |payloads| ==> key !in payloads[i]
    ensures Total(payloads, key) == 0
    decreases |payloads|
  {
    if payloads != [] {
      TotalOfUnrelated(payloads[..|payloads| - 1], key);
    }
  }
}
