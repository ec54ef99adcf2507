/** Listing a container's problems (tools/codeforces_bin/cmd/cf_case/main.go). */
module CfbinListing {
  import opened Prelude
  import opened Sorting
  import opened CfbinFormat
  import opened CfbinBuilder
  import opened CfbinReader
  import opened CfbinRoundTrip

  /** Contest id and problem index, as a line of the listing shows them. */
  type Problem = (nat, seq<byte>)

  predicate BytesLeq(a: seq<byte>, b: seq<byte>) {
    LexLeq((x: byte, y: byte) => x < y, a, b)
  }

  predicate ProblemLeq(p: Problem, q: Problem) {
    if p.0 == q.0 then BytesLeq(p.1, q.1) else p.0 < q.0
  }

  /** By contest number, then by the bytes of the index: a prefix first, or the smaller byte where they first differ. */
  lemma ProblemLeqIff(p: Problem, q: Problem)
    ensures ProblemLeq(p, q) <==>
      p.0 < q.0
      || (p.0 == q.0
          && (p.1 <= q.1 || exists k :: 0 <= k < |p.1| && k < |q.1| && p.1[..k] == q.1[..k] && p.1[k] < q.1[k]))
  {
    var less := (x: byte, y: byte) => x < y;
    LexLeqIff(less, p.1, q.1);
    if k :| 0 <= k < |p.1| && k < |q.1| && p.1[..k] == q.1[..k] && p.1[k] < q.1[k] { assert LessAt(less, p.1, q.1, k); }
  }

  lemma ProblemLeqIsTotalOrder()
    ensures TotalOrder(ProblemLeq)
  {
    forall p: Problem, q: Problem, r: Problem
      ensures ProblemLeq(p, p) && (ProblemLeq(p, q) || ProblemLeq(q, p))
              && (ProblemLeq(p, q) && ProblemLeq(q, p) ==> p == q)
              && (ProblemLeq(p, q) && ProblemLeq(q, r) ==> ProblemLeq(p, r))
    {
      LexFacts((x: byte, y: byte) => x < y, p.1, q.1, r.1);
    }
  }

  function ProblemOf(e: ProblemEntry): Problem { (e.contestID, e.index) }

  /** Every entry of the index is under its own key. */
  lemma {:induction false} IndexIsKeyed(es: seq<ProblemEntry>)
    ensures forall key | key in IndexMap(es) ::
              && key == MakeKey(IndexMap(es)[key].contestID, IndexMap(es)[key].index)
              && IndexMap(es)[key] in es
  {
    hide MakeKey;
    if es != [] { IndexIsKeyed(es[..|es| - 1]); }
  }

  ghost predicate Keyed(index: map<bytes, ProblemEntry>) {
    forall key | key in index :: key == MakeKey(index[key].contestID, index[key].index)
  }

  lemma ReaderIsKeyed(data: bytes)
    requires ReadFile(data).Ok?
    ensures Keyed(ReadFile(data).value.index)
  {
    hide MakeKey, IndexMap, ParseIndex;
    var h := ReadHeader(data[..HEADER_SIZE]).value;
    var es := ParseIndex(data[h.indexOffset..(h.indexOffset + h.indexSize) % UINT64]);
    IndexIsKeyed(es.value);
  }

  lemma InOrder(ps: seq<Problem>)
    requires Sorted(ps, ProblemLeq)
    ensures forall i, j :: 0 <= i < j < |ps| ==>
              var p, q := ps[i], ps[j];
              p.0 < q.0 || (p.0 == q.0 && (p.1 <= q.1
                            || exists k :: 0 <= k < |p.1| && k < |q.1| && p.1[..k] == q.1[..k] && p.1[k] < q.1[k]))
  {
    hide ProblemLeq;
    forall i, j | 0 <= i < j < |ps|
      ensures var p, q := ps[i], ps[j];
              p.0 < q.0 || (p.0 == q.0 && (p.1 <= q.1
                            || exists k :: 0 <= k < |p.1| && k < |q.1| && p.1[..k] == q.1[..k] && p.1[k] < q.1[k]))
    {
      ProblemLeqIff(ps[i], ps[j]);
    }
  }

  /** Walks the map in any order, then sorts: every problem of the index once, in order. */
  method ListProblems(data: bytes) returns (r: Result<seq<Problem>, ReadError>)
    ensures r.Err? <==> ReadFile(data).Err?
    ensures r.Err? ==> r.error == ReadFile(data).error
    ensures r.Ok? ==> forall i, j :: 0 <= i < j < |r.value| ==>
              var p, q := r.value[i], r.value[j];
              p != q && (p.0 < q.0
                         || (p.0 == q.0 && (p.1 <= q.1
                             || exists k :: 0 <= k < |p.1| && k < |q.1| && p.1[..k] == q.1[..k] && p.1[k] < q.1[k])))
    ensures r.Ok? ==> forall p :: p in r.value <==> MakeKey(p.0, p.1) in ReadFile(data).value.index
  {
    hide MakeKey, ReadFile, Sorted, TotalOrder, ProblemLeq;
    var reader := NewReader(data);
    if reader.Err? { return Err(reader.error); }
    var index := reader.value.index;
    ReaderIsKeyed(data);
    var left := index.Keys;
    var out: seq<Problem> := [];
    ghost var seen: set<Problem> := {};
    while left != {}
      invariant left <= index.Keys && Lists(out, seen)
      invariant forall p :: p in seen <==> MakeKey(p.0, p.1) in index && MakeKey(p.0, p.1) !in left
      decreases left
    {
      var key :| key in left;
      var p := ProblemOf(index[key]);
      forall q ensures q in seen + {p} <==> MakeKey(q.0, q.1) in index && MakeKey(q.0, q.1) !in left - {key} {
        KeysInjective(p.0, p.1, q.0, q.1);
      }
      left := left - {key};
      out := out + [p];
      seen := seen + {p};
    }
    ProblemLeqIsTotalOrder();
    var sorted := Sort(out, ProblemLeq, seen);
    InOrder(sorted);
    return Ok(sorted);
  }

  /** Of a built file the listing shows exactly the problems that have a record. */
  lemma ListingIsOfRecords(rs: seq<Record>, p: Problem)
    requires WithinLimits(rs)
    ensures ReadFile(File(rs)).Ok?
    ensures MakeKey(p.0, p.1) in ReadFile(File(rs)).value.index
            <==> p.0 < UINT32 && LastFor(rs, p.0, p.1) >= 0
  {
    hide MakeKey, ReadFile, File, IndexMap;
    FileIsAccepted(rs);
    if p.0 < UINT32 {
      IndexFindsLast(rs, p.0, p.1);
    } else {
      IndexIsKeyed(Entries(rs));
      EntriesFit(rs);
      forall key | key in IndexMap(Entries(rs)) ensures key != MakeKey(p.0, p.1) {
        var e := IndexMap(Entries(rs))[key];
        assert e.Fits();
        KeysInjective(e.contestID, e.index, p.0, p.1);
      }
    }
  }
}
