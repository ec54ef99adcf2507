/** The container reader: parses header and index, and answers lookups by slicing. */
module CfbinReader {
  import opened Prelude
  import opened LittleEndian
  import opened CfbinFormat

  // ---- Keys ----

  const COLON: byte := 58

  function Digits(n: nat): (s: bytes)
    ensures s != [] && COLON !in s
  {
    if n < 10 then [48 + n] else Digits(n / 10) + [48 + n % 10]
  }

  /** `fmt.Sprintf("%d:%s", contestID, index)` */
  function MakeKey(contestID: nat, index: bytes): bytes {
    Digits(contestID) + [COLON] + index
  }

  lemma {:induction false} DigitsInjective(m: nat, n: nat)
    requires Digits(m) == Digits(n)
    ensures m == n
  {
    var s, t := Digits(m), Digits(n);
    assert s[|s| - 1] == t[|t| - 1] && s[..|s| - 1] == t[..|t| - 1];
    if m >= 10 && n >= 10 {
      assert s[..|s| - 1] == Digits(m / 10) && t[..|t| - 1] == Digits(n / 10);
      DigitsInjective(m / 10, n / 10);
    }
  }

  lemma ColonSplits(a: bytes, b: bytes, x: bytes, y: bytes)
    requires a + [COLON] + x == b + [COLON] + y && COLON !in a && COLON !in b
    ensures a == b && x == y
  {
    var s := a + [COLON] + x;
    assert s[|a|] == COLON && s[|b|] == COLON;
    forall k | 0 <= k < |a| ensures s[k] != COLON { assert s[k] == a[k] && a[k] in a; }
    forall k | 0 <= k < |b| ensures s[k] != COLON { assert s[k] == b[k] && b[k] in b; }
    assert a == s[..|a|] && b == s[..|b|] && x == s[|a| + 1..] && y == s[|b| + 1..];
  }

  /** Different problems have different keys. */
  lemma KeysInjective(c: nat, i: bytes, c': nat, i': bytes)
    ensures MakeKey(c, i) == MakeKey(c', i') <==> c == c' && i == i'
  {
    if MakeKey(c, i) == MakeKey(c', i') {
      ColonSplits(Digits(c), Digits(c'), i, i');
      DigitsInjective(c, c');
    }
  }

  // ---- Reading ----

  datatype Reader = Reader(data: bytes, header: Header, index: map<bytes, ProblemEntry>)

  /** The map filled entry by entry: a later entry for the same problem replaces an earlier one. */
  function IndexMap(es: seq<ProblemEntry>): map<bytes, ProblemEntry> {
    if es == [] then map[]
    else
      var e := es[|es| - 1];
      IndexMap(es[..|es| - 1])[MakeKey(e.contestID, e.index) := e]
  }

  function ReadFile(data: bytes): Result<Reader, ReadError> {
    if |data| < HEADER_SIZE then Err(TooSmall)
    else
      match ReadHeader(data[..HEADER_SIZE])
      case Err(e) => Err(e)
      case Ok(h) =>
        var endIndex := (h.indexOffset + h.indexSize) % UINT64;
        if endIndex > |data| then Err(IndexOutOfBounds)
        else if h.indexOffset > endIndex then Err(SliceBoundsPanic)
        else
          match ParseIndex(data[h.indexOffset..endIndex])
          case Some(es) => Ok(Reader(data, h, IndexMap(es)))
          case None => Err(Truncated)
  }

  /** The outcome of a parse that has already gathered `xs`. */
  function Gathered<T, U>(xs: seq<T>, r: Option<(seq<T>, U)>): Option<(seq<T>, U)> {
    match r
    case Some((ys, rest)) => Some((xs + ys, rest))
    case None => None
  }

  lemma GatheredSteps<T, U>(xs: seq<T>, x: T, r: Option<(seq<T>, U)>)
    ensures Gathered([], r) == r
    ensures Gathered(xs, Gathered([x], r)) == Gathered(xs + [x], r)
  {
    if r.Some? {
      assert [] + r.value.0 == r.value.0 && xs + ([x] + r.value.0) == xs + [x] + r.value.0;
    }
  }

  /** The loop over the cases of one entry, on a cursor. */
  method ReadCases(idx: bytes, start: nat, count: nat) returns (r: Option<(seq<CaseEntry>, nat)>)
    requires start <= |idx|
    ensures r.None? <==> ParseCases(idx[start..], count).None?
    ensures r.Some? ==> r.value.1 <= |idx| && ParseCases(idx[start..], count) == Some((r.value.0, idx[r.value.1..]))
  {
    hide FromLE, ParseCase;
    var cases, pos: nat, i := [], start, 0;
    GatheredSteps([], CaseEntry(0, 0, 0, 0), ParseCases(idx[start..], count));
    while i < count
      invariant i <= count && pos <= |idx| && |cases| == i
      invariant ParseCases(idx[start..], count) == Gathered(cases, ParseCases(idx[pos..], count - i))
    {
      if |idx| < pos + CASE_SIZE {
        return None;
      }
      var inputOffset := FromLE(idx[pos..pos + 8]);
      var inputLength := FromLE(idx[pos + 8..pos + 12]);
      var outputOffset := FromLE(idx[pos + 12..pos + 20]);
      var outputLength := FromLE(idx[pos + 20..pos + 24]);
      var entry := CaseEntry(inputOffset, inputLength, outputOffset, outputLength);
      CaseOnCursor(idx, pos, count - i);
      GatheredSteps(cases, entry, ParseCases(idx[pos + CASE_SIZE..], count - i - 1));
      cases := cases + [entry];
      pos := pos + CASE_SIZE;
      i := i + 1;
    }
    assert cases + [] == cases;
    return Some((cases, pos));
  }

  lemma CaseOnCursor(idx: bytes, pos: nat, n: nat)
    requires pos + CASE_SIZE <= |idx| && n > 0
    ensures ParseCases(idx[pos..], n)
            == Gathered(
                 [CaseEntry(FromLE(idx[pos..pos + 8]), FromLE(idx[pos + 8..pos + 12]),
                            FromLE(idx[pos + 12..pos + 20]), FromLE(idx[pos + 20..pos + 24]))],
                 ParseCases(idx[pos + CASE_SIZE..], n - 1))
  {
    var bs := idx[pos..];
    assert bs[CASE_SIZE..] == idx[pos + CASE_SIZE..];
    assert bs[..8] == idx[pos..pos + 8] && bs[8..12] == idx[pos + 8..pos + 12];
    assert bs[12..20] == idx[pos + 12..pos + 20] && bs[20..24] == idx[pos + 20..pos + 24];
  }

  /** One turn of the index loop: reads the entry at `start`, and where the next one begins. */
  method ReadEntry(idx: bytes, start: nat) returns (r: Option<(ProblemEntry, nat)>)
    requires start < |idx|
    ensures r.None? <==> ParseEntry(idx[start..]).None?
    ensures r.Some? ==> start < r.value.1 <= |idx| && ParseEntry(idx[start..]) == Some((r.value.0, idx[r.value.1..]))
  {
    var pos := start;
    ghost var bs := idx[start..];
    if |idx| < pos + 4 {
      return None;
    }
    var contestID := FromLE(idx[pos..pos + 4]);
    pos := pos + 4;
    if |idx| < pos + 1 {
      return None;
    }
    var indexLen: nat := idx[pos];
    pos := pos + 1;
    if |idx| < pos + indexLen {
      return None;
    }
    var index := idx[pos..pos + indexLen];
    pos := pos + indexLen;
    if |idx| < pos + 4 {
      return None;
    }
    var caseCount := FromLE(idx[pos..pos + 4]);
    pos := pos + 4;
    assert bs[..4] == idx[start..start + 4] && bs[4] == indexLen && bs[5..5 + indexLen] == index;
    assert bs[5 + indexLen..9 + indexLen] == idx[pos - 4..pos] && bs[9 + indexLen..] == idx[pos..];
    var cases := ReadCases(idx, pos, caseCount);
    if cases.None? {
      return None;
    }
    return Some((ProblemEntry(contestID, index, cases.value.0), cases.value.1));
  }

  method NewReader(data: bytes) returns (r: Result<Reader, ReadError>)
    ensures r == ReadFile(data)
  {
    if |data| < HEADER_SIZE {
      return Err(TooSmall);
    }
    var header := ReadHeader(data[..HEADER_SIZE]);
    if header.Err? {
      return Err(header.error);
    }
    var h := header.value;
    var endIndex := (h.indexOffset + h.indexSize) % UINT64;
    if endIndex > |data| {
      return Err(IndexOutOfBounds);
    }
    if h.indexOffset > endIndex {
      return Err(SliceBoundsPanic);
    }
    var idx := data[h.indexOffset..endIndex];
    var index := FillIndex(idx);
    if index.None? {
      return Err(Truncated);
    }
    return Ok(Reader(data, h, index.value));
  }

  /** The index loop. It ends because every entry takes bytes. */
  method FillIndex(idx: bytes) returns (r: Option<map<bytes, ProblemEntry>>)
    ensures r == match ParseIndex(idx) case Some(es) => Some(IndexMap(es)) case None => None
  {
    hide ParseEntry, MakeKey;
    var index: map<bytes, ProblemEntry> := map[];
    ghost var es: seq<ProblemEntry> := [];
    var pos := 0;
    assert idx[0..] == idx;
    JoinedSteps([], ProblemEntry(0, [], []), ParseIndex(idx));
    while pos < |idx|
      invariant pos <= |idx| && index == IndexMap(es)
      invariant ParseIndex(idx) == Joined(es, ParseIndex(idx[pos..]))
    {
      var read := ReadEntry(idx, pos);
      if read.None? {
        return None;
      }
      var e := read.value.0;
      index := index[MakeKey(e.contestID, e.index) := e];
      JoinedSteps(es, e, ParseIndex(idx[read.value.1..]));
      assert (es + [e])[..|es|] == es;
      es := es + [e];
      pos := read.value.1;
    }
    assert es + [] == es;
    return Some(index);
  }

  function Joined<T>(xs: seq<T>, r: Option<seq<T>>): Option<seq<T>> {
    match r
    case Some(ys) => Some(xs + ys)
    case None => None
  }

  lemma JoinedSteps<T>(xs: seq<T>, x: T, r: Option<seq<T>>)
    ensures Joined([], r) == r
    ensures Joined(xs, Joined([x], r)) == Joined(xs + [x], r)
  {
    if r.Some? {
      assert [] + r.value == r.value && xs + ([x] + r.value) == xs + [x] + r.value;
    }
  }

  // ---- Lookups ----

  datatype Lookup =
    | NotFound
    | OutOfRange(total: nat)
    | Unreadable(total: nat, error: ReadError)
    | Found(input: bytes, output: bytes, total: nat)

  /** 64-bit sums: an offset from outside may wrap around. */
  function Slice(r: Reader, offset: nat, length: nat): Result<bytes, ReadError> {
    var start := (r.header.dataOffset + offset) % UINT64;
    var end := (start + length) % UINT64;
    if end > |r.data| then Err(SliceOutOfBounds)
    else if start > end then Err(SliceBoundsPanic)
    else Ok(r.data[start..end])
  }

  function Get(r: Reader, contestID: nat, index: bytes, caseNumber: nat): Lookup {
    var key := MakeKey(contestID, index);
    if key !in r.index then NotFound
    else
      var entry := r.index[key];
      var total := |entry.cases| % UINT32;
      if caseNumber >= total then OutOfRange(total)
      else
        var c := entry.cases[caseNumber];
        match Slice(r, c.inputOffset, c.inputLength)
        case Err(e) => Unreadable(total, e)
        case Ok(input) =>
          match Slice(r, c.outputOffset, c.outputLength)
          case Err(e) => Unreadable(total, e)
          case Ok(output) => Found(input, output, total)
  }
}
