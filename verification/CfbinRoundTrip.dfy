/** What the builder writes, the reader reads back. */
module CfbinRoundTrip {
  import opened Prelude
  import opened LittleEndian
  import opened CfbinFormat
  import opened CfbinBuilder
  import opened CfbinReader

  /** The widths of the fields, and of the whole file. A contest id may be any number. */
  ghost predicate WithinLimits(rs: seq<Record>) {
    && (forall r :: r in rs ==> RecordWithinLimits(r))
    && HEADER_SIZE + DataSize(rs) + IndexSize(rs) < UINT64
  }

  function CasesSize(cs: seq<TestCase>): nat {
    if cs == [] then 0 else CasesSize(cs[..|cs| - 1]) + |cs[|cs| - 1].input| + |cs[|cs| - 1].output|
  }

  function DataSize(rs: seq<Record>): nat {
    if rs == [] then 0 else DataSize(rs[..|rs| - 1]) + CasesSize(rs[|rs| - 1].cases)
  }

  /** Nine bytes and the index for each problem, and a fixed number for each case. */
  function IndexSize(rs: seq<Record>): nat {
    if rs == [] then 0
    else IndexSize(rs[..|rs| - 1]) + 9 + |rs[|rs| - 1].index| + CASE_SIZE * |rs[|rs| - 1].cases|
  }

  ghost predicate RecordWithinLimits(r: Record) {
    && |r.index| <= 255 && |r.cases| < UINT32
    && forall c :: c in r.cases ==> |c.input| < UINT32 && |c.output| < UINT32
  }

  /** The position of the last record for a problem, if any. */
  function LastFor(rs: seq<Record>, contestID: nat, index: bytes): (j: int)
    ensures -1 <= j < |rs|
  {
    if rs == [] then -1
    else
      var n := |rs| - 1;
      if rs[n].contestID % UINT32 == contestID && rs[n].index == index then n else LastFor(rs[..n], contestID, index)
  }

  /** What a lookup should answer, from the records alone. */
  function Answer(rs: seq<Record>, contestID: nat, index: bytes, caseNumber: nat): Lookup {
    var j := LastFor(rs, contestID, index);
    if j < 0 then NotFound
    else if caseNumber >= |rs[j].cases| then OutOfRange(|rs[j].cases|)
    else Found(rs[j].cases[caseNumber].input, rs[j].cases[caseNumber].output, |rs[j].cases|)
  }

  // ---- The size of the file ----

  lemma {:induction false} CaseDataLength(cs: seq<TestCase>)
    ensures |CaseData(cs)| == CasesSize(cs)
  {
    if cs != [] { CaseDataLength(cs[..|cs| - 1]); }
  }

  lemma {:induction false} DataLength(rs: seq<Record>)
    ensures |Data(rs)| == DataSize(rs)
  {
    if rs != [] {
      DataLength(rs[..|rs| - 1]);
      CaseDataLength(rs[|rs| - 1].cases);
    }
  }

  lemma {:induction false} EncodedCasesLength(cs: seq<CaseEntry>)
    ensures |EncodeCases(cs)| == CASE_SIZE * |cs|
  {
    hide EncodeCase;
    if cs != [] { EncodedCasesLength(cs[1..]); }
  }

  lemma {:induction false} IndexLength(rs: seq<Record>)
    ensures |EncodeIndex(Entries(rs))| == IndexSize(rs)
  {
    hide LE, EncodeCases, CasesAt, EncodeIndex, Data;
    if rs == [] {
      assert EncodeIndex(Entries(rs)) == [] by { NoIndex(); }
    } else {
      var n := |rs| - 1;
      var r, pos := rs[n], |Data(rs[..n])|;
      IndexLength(rs[..n]);
      EncodeIndexSnoc(Entries(rs[..n]), EntryAt(r, pos));
      EncodedCasesLength(CasesAt(r.cases, pos));
    }
  }

  lemma NoIndex()
    ensures EncodeIndex([]) == []
  {}

  /** How large the container gets: header, every input and output once, and the index. */
  lemma FileSize(rs: seq<Record>)
    ensures |File(rs)| == HEADER_SIZE + DataSize(rs) + IndexSize(rs)
  {
    hide LE, Data, EncodeIndex, Entries;
    DataLength(rs);
    IndexLength(rs);
    HeaderLength(NewHeader(|Data(rs)| % UINT64, |EncodeIndex(Entries(rs))| % UINT64));
    hide WriteHeader;
  }

  lemma HeaderLength(h: Header)
    requires |h.magic| == 8
    ensures |WriteHeader(h)| == HEADER_SIZE
  {
    hide LE;
  }

  // ---- The file is accepted ----

  lemma {:induction false} CasesFit(cs: seq<TestCase>, pos: nat)
    ensures forall c :: c in CasesAt(cs, pos) ==> c.Fits()
  {
    if cs != [] { CasesFit(cs[..|cs| - 1], pos); }
  }

  lemma {:induction false} EntriesFit(rs: seq<Record>)
    requires forall r :: r in rs ==> RecordWithinLimits(r)
    ensures forall e :: e in Entries(rs) ==> e.Fits()
  {
    if rs != [] {
      var n := |rs| - 1;
      EntriesFit(rs[..n]);
      CasesFit(rs[n].cases, |Data(rs[..n])|);
      assert rs[n] in rs;
    }
  }

  function FileHeader(rs: seq<Record>): Header {
    NewHeader(|Data(rs)| % UINT64, |EncodeIndex(Entries(rs))| % UINT64)
  }

  lemma ThreeParts(a: bytes, b: bytes, c: bytes)
    ensures (a + b + c)[..|a|] == a
    ensures (a + b + c)[|a|..|a| + |b|] == b
    ensures (a + b + c)[|a| + |b|..] == c
  {}

  lemma HeaderIsRead(dataSize: nat, indexSize: nat)
    requires dataSize < UINT64 && indexSize < UINT64
    ensures var h := NewHeader(dataSize, indexSize);
      h.Fits() && |WriteHeader(h)| == HEADER_SIZE && ReadHeader(WriteHeader(h)) == Ok(h)
  {
    HeaderReadsBack(NewHeader(dataSize, indexSize));
  }

  /** The sections follow one another, and the header says where they begin and how large they are. */
  lemma HeaderOf(rs: seq<Record>)
    requires |File(rs)| < UINT64
    ensures var h := FileHeader(rs);
      && h.dataOffset == HEADER_SIZE && h.dataSize == |Data(rs)| && h.indexOffset == HEADER_SIZE + |Data(rs)|
      && h.indexSize == |EncodeIndex(Entries(rs))| && |File(rs)| == h.indexOffset + h.indexSize
      && File(rs)[..HEADER_SIZE] == WriteHeader(h) && |WriteHeader(h)| == HEADER_SIZE
      && File(rs)[HEADER_SIZE..h.indexOffset] == Data(rs)
      && File(rs)[h.indexOffset..] == EncodeIndex(Entries(rs))
      && ReadHeader(WriteHeader(h)) == Ok(h)
  {
    var data, index := Data(rs), EncodeIndex(Entries(rs));
    hide WriteHeader, Data, Entries, EncodeIndex, ReadHeader;
    HeaderIsRead(|data| % UINT64, |index| % UINT64);
    ThreeParts(WriteHeader(FileHeader(rs)), data, index);
  }

  lemma AcceptedFile(file: bytes, h: Header, es: seq<ProblemEntry>)
    requires |file| >= HEADER_SIZE && ReadHeader(file[..HEADER_SIZE]) == Ok(h)
    requires |file| == h.indexOffset + h.indexSize < UINT64
    requires ParseIndex(file[h.indexOffset..]) == Some(es)
    ensures ReadFile(file) == Ok(Reader(file, h, IndexMap(es)))
  {
    hide ParseIndex, IndexMap, ReadHeader;
    assert file[h.indexOffset..|file|] == file[h.indexOffset..];
    assert (h.indexOffset + h.indexSize) % UINT64 == |file|;
  }

  lemma FileIsAccepted(rs: seq<Record>)
    requires WithinLimits(rs)
    ensures ReadFile(File(rs)) == Ok(Reader(File(rs), FileHeader(rs), IndexMap(Entries(rs))))
  {
    FileSize(rs);
    HeaderOf(rs);
    EntriesFit(rs);
    IndexReadsBack(Entries(rs));
    hide File, WriteHeader, Entries, EncodeIndex, Data, IndexMap, ReadHeader, ParseIndex, ReadFile, WithinLimits, RecordWithinLimits;
    AcceptedFile(File(rs), FileHeader(rs), Entries(rs));
  }

  /** Header and index as a reader wants them; the sum of offset and size is cut to 64 bits. */
  ghost predicate Layout(data: bytes, h: Header, es: seq<ProblemEntry>) {
    && h.Fits() && h.magic == [67, 70, 80, 68, 66, 73, 78, 49] && h.version == 1 && h.dataOffset == 48
    && WriteHeader(h) <= data
    && var end := (h.indexOffset + h.indexSize) % UINT64;
       && h.indexOffset <= end <= |data| && data[h.indexOffset..end] == EncodeIndex(es)
       && forall e :: e in es ==> e.Fits()
  }

  /** A reader accepts a file just when it has that layout, for one header and one list of entries. */
  lemma AcceptedIff(data: bytes)
    ensures ReadFile(data).Ok? <==> exists h, es :: Layout(data, h, es)
    ensures forall h, es :: Layout(data, h, es) ==> ReadFile(data) == Ok(Reader(data, h, IndexMap(es)))
  {
    hide WriteHeader, HeaderFields, EncodeIndex, ParseIndex, IndexMap;
    forall h, es | Layout(data, h, es) ensures ReadFile(data) == Ok(Reader(data, h, IndexMap(es))) {
      LayoutIsRead(data, h, es);
    }
    if ReadFile(data).Ok? {
      var h := ReadFile(data).value.header;
      var idx := data[h.indexOffset..(h.indexOffset + h.indexSize) % UINT64];
      HeaderWritesBack(data[..HEADER_SIZE]);
      IndexGrammarExact(idx, ParseIndex(idx).value);
      assert Layout(data, h, ParseIndex(idx).value);
    }
  }

  lemma LayoutIsRead(data: bytes, h: Header, es: seq<ProblemEntry>)
    requires Layout(data, h, es)
    ensures ReadFile(data) == Ok(Reader(data, h, IndexMap(es)))
  {
    hide WriteHeader, HeaderFields, EncodeIndex, ParseIndex, IndexMap;
    HeaderReadsBack(h);
    assert data[..HEADER_SIZE] == WriteHeader(h);
    IndexGrammarExact(data[h.indexOffset..(h.indexOffset + h.indexSize) % UINT64], es);
  }

  /** Why a reader refuses a file. It reads the fields in this order and stops at the first that is wrong. */
  lemma RefusedBecause(data: bytes)
    ensures ReadFile(data) == Err(TooSmall) <==> |data| < 48
    ensures |data| >= 48 ==>
      var magic := data[..8] == [67, 70, 80, 68, 66, 73, 78, 49];
      var version, offset := FromLE(data[8..12]) == 1, FromLE(data[16..24]) == 48;
      var begin := FromLE(data[32..40]);
      var end := (begin + FromLE(data[40..48])) % UINT64;
      && (ReadFile(data) == Err(BadMagic) <==> !magic)
      && (ReadFile(data) == Err(BadVersion) <==> magic && !version)
      && (ReadFile(data) == Err(BadDataOffset) <==> magic && version && !offset)
      && (ReadFile(data) == Err(IndexOutOfBounds) <==> magic && version && offset && end > |data|)
      && (ReadFile(data) == Err(SliceBoundsPanic) <==> magic && version && offset && begin > end && end <= |data|)
      && (ReadFile(data) == Err(Truncated) <==>
            magic && version && offset && begin <= end <= |data|
            && forall es: seq<ProblemEntry> :: (forall e :: e in es ==> e.Fits()) ==> data[begin..end] != EncodeIndex(es))
  {
    hide FromLE, ParseIndex, EncodeIndex, IndexMap;
    if |data| >= 48 {
      var head := data[..HEADER_SIZE];
      assert head[..8] == data[..8] && head[8..12] == data[8..12] && head[16..24] == data[16..24];
      assert head[32..40] == data[32..40] && head[40..48] == data[40..48];
      var begin := FromLE(data[32..40]);
      var end := (begin + FromLE(data[40..48])) % UINT64;
      if begin <= end <= |data| { NotAnIndex(data[begin..end]); }
    }
  }

  lemma NotAnIndex(bs: bytes)
    ensures ParseIndex(bs) == None <==> forall es: seq<ProblemEntry> :: (forall e :: e in es ==> e.Fits()) ==> bs != EncodeIndex(es)
  {
    hide EncodeIndex, ParseIndex;
    if ParseIndex(bs).Some? { IndexGrammarExact(bs, ParseIndex(bs).value); }
    forall es: seq<ProblemEntry> | (forall e :: e in es ==> e.Fits()) && bs == EncodeIndex(es) ensures ParseIndex(bs).Some? {
      IndexGrammarExact(bs, es);
    }
  }

  // ---- The right entry is found ----

  lemma EntriesSnoc(rs: seq<Record>, r: Record)
    ensures Entries(rs + [r]) == Entries(rs) + [EntryAt(r, |Data(rs)|)]
  {
    assert (rs + [r])[..|rs|] == rs;
  }

  lemma IndexMapSnoc(es: seq<ProblemEntry>, e: ProblemEntry)
    ensures IndexMap(es + [e]) == IndexMap(es)[MakeKey(e.contestID, e.index) := e]
  {
    assert (es + [e])[..|es|] == es;
  }

  lemma LastForSnoc(rs: seq<Record>, r: Record, c: nat, i: bytes)
    ensures LastFor(rs + [r], c, i)
            == if r.contestID % UINT32 == c && r.index == i then |rs| else LastFor(rs, c, i)
  {
    assert (rs + [r])[..|rs|] == rs;
  }

  lemma {:induction false} IndexFindsLast(rs: seq<Record>, c: nat, i: bytes)
    requires c < UINT32
    ensures var j, m, key := LastFor(rs, c, i), IndexMap(Entries(rs)), MakeKey(c, i);
      && (key in m <==> j >= 0)
      && (j >= 0 ==> m[key] == EntryAt(rs[j], |Data(rs[..j])|))
  {
    if rs != [] {
      var n := |rs| - 1;
      var front, r := rs[..n], rs[n];
      assert rs == front + [r];
      hide LastFor, IndexMap, Entries, Data, CasesAt, MakeKey;
      IndexFindsLast(front, c, i);
      EntriesSnoc(front, r);
      IndexMapSnoc(Entries(front), EntryAt(r, |Data(front)|));
      LastForSnoc(front, r, c, i);
      KeysInjective(r.contestID % UINT32, r.index, c, i);
      var j := LastFor(front, c, i);
      if j >= 0 { assert front[..j] == rs[..j] && front[j] == rs[j]; }
    }
  }

  lemma {:induction false} EntriesLength(rs: seq<Record>)
    ensures |Entries(rs)| == |rs|
  {
    if rs != [] { EntriesLength(rs[..|rs| - 1]); }
  }

  // ---- The entry leads to the data ----

  /** The data of record `j` stands in one piece in the data section. */
  lemma {:induction false} DataOfRecord(rs: seq<Record>, j: nat)
    requires j < |rs|
    ensures var p, d := |Data(rs[..j])|, CaseData(rs[j].cases);
      p + |d| <= |Data(rs)| && Data(rs)[p..p + |d|] == d
  {
    hide CaseData;
    var n := |rs| - 1;
    if j < n {
      DataOfRecord(rs[..n], j);
      assert rs[..n][..j] == rs[..j];
      var p, d := |Data(rs[..j])|, CaseData(rs[j].cases);
      assert Data(rs)[..|Data(rs[..n])|] == Data(rs[..n]);
      SliceOfPrefix(Data(rs), |Data(rs[..n])|, p, p + |d|);
    }
  }

  /** The input and output of case `k` stand one after the other in the data of its record. */
  lemma {:induction false} DataOfCase(cs: seq<TestCase>, k: nat)
    requires k < |cs|
    ensures var p, d := |CaseData(cs[..k])|, CaseData(cs);
      && p + |cs[k].input| + |cs[k].output| <= |d|
      && d[p..p + |cs[k].input|] == cs[k].input
      && d[p + |cs[k].input|..p + |cs[k].input| + |cs[k].output|] == cs[k].output
  {
    var n := |cs| - 1;
    if k < n {
      DataOfCase(cs[..n], k);
      assert cs[..n][..k] == cs[..k];
      var p, d, d' := |CaseData(cs[..k])|, CaseData(cs), CaseData(cs[..n]);
      assert d == d' + cs[n].input + cs[n].output;
      assert d[..|d'|] == d';
      SliceOfPrefix(d, |d'|, p, p + |cs[k].input|);
      SliceOfPrefix(d, |d'|, p + |cs[k].input|, p + |cs[k].input| + |cs[k].output|);
    }
  }

  lemma SliceOfPrefix(d: bytes, n: nat, a: nat, b: nat)
    requires a <= b <= n <= |d|
    ensures d[..n][a..b] == d[a..b]
  {}

  lemma SliceOfSlice(d: bytes, p: nat, q: nat, a: nat, b: nat)
    requires p <= q <= |d| && a <= b <= q - p
    ensures d[p..q][a..b] == d[p + a..p + b]
  {
    assert forall k: int | 0 <= k < b - a :: d[p..q][a..b][k] == d[p + a + k];
  }

  lemma {:induction false} CaseEntryAt(cs: seq<TestCase>, pos: nat, k: nat)
    requires k < |cs|
    ensures CasesAt(cs, pos)[k] == CaseAt(cs[k], pos + |CaseData(cs[..k])|)
  {
    var n := |cs| - 1;
    if k < n {
      CaseEntryAt(cs[..n], pos, k);
      assert cs[..n][..k] == cs[..k];
    }
  }

  /** Where case `k` of record `j` stands in the data section. */
  function CasePos(rs: seq<Record>, j: nat, k: nat): nat
    requires j < |rs| && k < |rs[j].cases|
  {
    |Data(rs[..j])| + |CaseData(rs[j].cases[..k])|
  }

  lemma CaseInData(rs: seq<Record>, j: nat, k: nat)
    requires j < |rs| && k < |rs[j].cases|
    ensures var c, pos := rs[j].cases[k], CasePos(rs, j, k);
      && pos + |c.input| + |c.output| <= |Data(rs)|
      && Data(rs)[pos..pos + |c.input|] == c.input
      && Data(rs)[pos + |c.input|..pos + |c.input| + |c.output|] == c.output
  {
    hide Data, CaseData;
    DataOfRecord(rs, j);
    DataOfCase(rs[j].cases, k);
    var c := rs[j].cases[k];
    Nested(Data(rs), |Data(rs[..j])|, CaseData(rs[j].cases), |CaseData(rs[j].cases[..k])|, c.input, c.output);
  }

  lemma Nested(d: bytes, p: nat, m: bytes, a: nat, x: bytes, y: bytes)
    requires p + |m| <= |d| && d[p..p + |m|] == m
    requires a + |x| + |y| <= |m| && m[a..a + |x|] == x && m[a + |x|..a + |x| + |y|] == y
    ensures d[p + a..p + a + |x|] == x && d[p + a + |x|..p + a + |x| + |y|] == y
  {
    SliceOfSlice(d, p, p + |m|, a, a + |x|);
    SliceOfSlice(d, p, p + |m|, a + |x|, a + |x| + |y|);
  }

  /**
    A slice is the bytes asked for just when they lie in the file. A sum past 64 bits wraps to
    an end before the start: then it is refused, or the process stops.
  */
  lemma SliceExact(r: Reader, offset: nat, length: nat)
    requires r.header.dataOffset + offset < UINT64 && length < UINT32
    ensures var start, end := r.header.dataOffset + offset, r.header.dataOffset + offset + length;
      Slice(r, offset, length)
      == if end < UINT64 then (if end <= |r.data| then Ok(r.data[start..end]) else Err(SliceOutOfBounds))
         else if end - UINT64 > |r.data| then Err(SliceOutOfBounds) else Err(SliceBoundsPanic)
  {
    var end := r.header.dataOffset + offset + length;
    if end >= UINT64 { assert end % UINT64 == end - UINT64; }
  }

  lemma SliceInside(file: bytes, h: Header, index: map<bytes, ProblemEntry>, data: bytes, pos: nat, length: nat)
    requires h.dataOffset == HEADER_SIZE && HEADER_SIZE + |data| <= |file| < UINT64
    requires file[HEADER_SIZE..HEADER_SIZE + |data|] == data && pos + length <= |data|
    ensures Slice(Reader(file, h, index), pos, length) == Ok(data[pos..pos + length])
  {
    SliceOfSlice(file, HEADER_SIZE, HEADER_SIZE + |data|, pos, pos + length);
  }

  /** None of the reader's 64-bit sums wraps on a file the builder made within the limits. */
  lemma SliceFindsData(rs: seq<Record>, pos: nat, length: nat)
    requires |File(rs)| < UINT64 && pos + length <= |Data(rs)|
    ensures HEADER_SIZE + pos + length < UINT64
    ensures Slice(Reader(File(rs), FileHeader(rs), IndexMap(Entries(rs))), pos, length)
            == Ok(Data(rs)[pos..pos + length])
  {
    hide File, FileHeader, IndexMap, Entries, Data, EncodeIndex, WriteHeader, ReadHeader, Slice;
    HeaderOf(rs);
    SliceInside(File(rs), FileHeader(rs), IndexMap(Entries(rs)), Data(rs), pos, length);
  }

  lemma LimitsOfCase(rs: seq<Record>, j: nat, k: nat)
    requires WithinLimits(rs) && j < |rs| && k < |rs[j].cases|
    ensures |File(rs)| < UINT64 && |rs[j].cases| < UINT32
    ensures |rs[j].cases[k].input| < UINT32 && |rs[j].cases[k].output| < UINT32
  {
    hide File;
    FileSize(rs);
    assert rs[j] in rs && RecordWithinLimits(rs[j]) && rs[j].cases[k] in rs[j].cases;
  }

  /** The entry of case `k` of record `j`: nothing in it is cut. */
  lemma CaseEntryOf(rs: seq<Record>, j: nat, k: nat)
    requires WithinLimits(rs) && j < |rs| && k < |rs[j].cases|
    ensures var c, pos, es := rs[j].cases[k], CasePos(rs, j, k), EntryAt(rs[j], |Data(rs[..j])|).cases;
      |es| == |rs[j].cases| && es[k] == CaseEntry(pos, |c.input|, pos + |c.input|, |c.output|)
  {
    hide File, Data, CaseData, CasesAt, CaseAt, DataSize, IndexSize, WithinLimits;
    LimitsOfCase(rs, j, k);
    CaseInData(rs, j, k);
    DataFits(rs);
    CaseEntryAt(rs[j].cases, |Data(rs[..j])|, k);
    CaseFields(rs[j].cases[k], CasePos(rs, j, k));
  }

  lemma DataFits(rs: seq<Record>)
    requires WithinLimits(rs)
    ensures |Data(rs)| < UINT64
  {
    hide Data, DataSize, IndexSize, RecordWithinLimits;
    DataLength(rs);
  }

  /** The two slices that answer for case `k` of record `j` yield its input and output. */
  lemma CaseIsRead(rs: seq<Record>, j: nat, k: nat)
    requires WithinLimits(rs) && j < |rs| && k < |rs[j].cases|
    ensures var r, c := Reader(File(rs), FileHeader(rs), IndexMap(Entries(rs))), rs[j].cases[k];
      && |EntryAt(rs[j], |Data(rs[..j])|).cases| == |rs[j].cases| < UINT32
      && var e := EntryAt(rs[j], |Data(rs[..j])|).cases[k];
         && Slice(r, e.inputOffset, e.inputLength) == Ok(c.input)
         && Slice(r, e.outputOffset, e.outputLength) == Ok(c.output)
  {
    hide *;
    var c, pos := rs[j].cases[k], CasePos(rs, j, k);
    LimitsOfCase(rs, j, k);
    CaseInData(rs, j, k);
    CaseEntryOf(rs, j, k);
    SliceFindsData(rs, pos, |c.input|);
    SliceFindsData(rs, pos + |c.input|, |c.output|);
  }

  /**
    The round trip: the reader accepts what the builder wrote, and every lookup answers
    from the last record for the problem, with exactly the bytes of the case asked for.
  */
  lemma RoundTrip(rs: seq<Record>, contestID: nat, index: bytes, caseNumber: nat)
    requires WithinLimits(rs) && contestID < UINT32
    ensures ReadFile(File(rs)).Ok?
    ensures Get(ReadFile(File(rs)).value, contestID, index, caseNumber) == Answer(rs, contestID, index, caseNumber)
  {
    hide ReadFile, File, FileHeader, Data, CaseData, Entries, IndexMap, Slice, CasesAt, MakeKey, LastFor, WithinLimits;
    FileIsAccepted(rs);
    IndexFindsLast(rs, contestID, index);
    var j := LastFor(rs, contestID, index);
    if j >= 0 {
      RecordFits(rs, j);
      if caseNumber < |rs[j].cases| {
        CaseIsRead(rs, j, caseNumber);
      }
    }
  }

  lemma RecordFits(rs: seq<Record>, j: nat)
    requires WithinLimits(rs) && j < |rs|
    ensures |rs[j].cases| < UINT32
  {
    assert rs[j] in rs;
  }

  /** A failed build leaves a file that no reader accepts. */
  lemma FailedBuildIsRejected(file: bytes)
    requires Zeros(HEADER_SIZE) <= file
    ensures ReadFile(file) == Err(BadMagic)
  {
    assert file[..HEADER_SIZE] == Zeros(HEADER_SIZE);
    assert file[..HEADER_SIZE][..8][0] == 0;
  }

  // ---- Tiling ----

  /** The extents an index refers to, in the order they were written. */
  function CaseExtents(cs: seq<CaseEntry>): seq<(nat, nat)> {
    if cs == [] then []
    else
      var c := cs[|cs| - 1];
      CaseExtents(cs[..|cs| - 1]) + [(c.inputOffset, c.inputLength), (c.outputOffset, c.outputLength)]
  }

  function Extents(es: seq<ProblemEntry>): seq<(nat, nat)> {
    if es == [] then [] else Extents(es[..|es| - 1]) + CaseExtents(es[|es| - 1].cases)
  }

  /** The extents follow one another from `a` to `b`, with no gap and no overlap. */
  ghost predicate Tile(xs: seq<(nat, nat)>, a: nat, b: nat) {
    if xs == [] then a == b
    else
      var last := xs[|xs| - 1];
      last.0 + last.1 == b && Tile(xs[..|xs| - 1], a, last.0)
  }

  lemma {:induction false} TileAppend(xs: seq<(nat, nat)>, ys: seq<(nat, nat)>, a: nat, b: nat, c: nat)
    requires Tile(xs, a, b) && Tile(ys, b, c)
    ensures Tile(xs + ys, a, c)
  {
    if ys == [] {
      assert xs + ys == xs;
    } else {
      var n := |ys| - 1;
      TileAppend(xs, ys[..n], a, b, ys[n].0);
      assert (xs + ys)[..|xs| + n] == xs + ys[..n];
    }
  }

  function InputThenOutput(p: nat, m: nat, n: nat): seq<(nat, nat)> {
    [(p, m), (p + m, n)]
  }

  lemma TwoTile(p: nat, m: nat, n: nat)
    ensures Tile(InputThenOutput(p, m, n), p, p + m + n)
  {
    assert [(p, m), (p + m, n)][..1] == [(p, m)] && [(p, m)][..0] == [];
    assert Tile([(p, m)], p, p + m);
  }

  lemma CaseFields(c: TestCase, p: nat)
    requires p + |c.input| < UINT64 && |c.input| < UINT32 && |c.output| < UINT32
    ensures CaseAt(c, p) == CaseEntry(p, |c.input|, p + |c.input|, |c.output|)
  {}

  lemma ExtentsSnoc(es: seq<CaseEntry>, c: CaseEntry)
    requires c.outputOffset == c.inputOffset + c.inputLength
    ensures CaseExtents(es + [c]) == CaseExtents(es) + InputThenOutput(c.inputOffset, c.inputLength, c.outputLength)
  {
    assert (es + [c])[..|es|] == es;
  }

  lemma {:induction false} CasesTile(cs: seq<TestCase>, pos: nat)
    requires pos + |CaseData(cs)| < UINT64
    requires forall k :: 0 <= k < |cs| ==> |cs[k].input| < UINT32 && |cs[k].output| < UINT32
    ensures Tile(CaseExtents(CasesAt(cs, pos)), pos, pos + |CaseData(cs)|)
  {
    if cs != [] {
      var n := |cs| - 1;
      var c, p := cs[n], pos + |CaseData(cs[..n])|;
      assert pos + |CaseData(cs)| == p + |c.input| + |c.output|;
      assert CasesAt(cs, pos) == CasesAt(cs[..n], pos) + [CaseAt(c, p)];
      hide *;
      CasesTile(cs[..n], pos);
      CaseFields(c, p);
      ExtentsSnoc(CasesAt(cs[..n], pos), CaseAt(c, p));
      TwoTile(p, |c.input|, |c.output|);
      TileAppend(CaseExtents(CasesAt(cs[..n], pos)), InputThenOutput(p, |c.input|, |c.output|),
        pos, p, p + |c.input| + |c.output|);
    }
  }

  lemma ExtentsOfRecords(rs: seq<Record>, r: Record)
    ensures Extents(Entries(rs + [r])) == Extents(Entries(rs)) + CaseExtents(CasesAt(r.cases, |Data(rs)|))
    ensures |Data(rs + [r])| == |Data(rs)| + |CaseData(r.cases)|
  {
    hide CaseData, CasesAt, CaseExtents;
    assert (rs + [r])[..|rs|] == rs;
    var e := EntryAt(r, |Data(rs)|);
    assert Entries(rs + [r]) == Entries(rs) + [e] && (Entries(rs) + [e])[..|Entries(rs)|] == Entries(rs);
  }

  lemma RecordTiles(r: Record, pos: nat)
    requires RecordWithinLimits(r) && pos + |CaseData(r.cases)| < UINT64
    ensures Tile(CaseExtents(CasesAt(r.cases, pos)), pos, pos + |CaseData(r.cases)|)
  {
    assert forall k | 0 <= k < |r.cases| :: r.cases[k] in r.cases;
    hide Tile, CaseData, CasesAt, CaseExtents;
    CasesTile(r.cases, pos);
  }

  lemma OneMoreTile(rs: seq<Record>, r: Record)
    requires Tile(Extents(Entries(rs)), 0, |Data(rs)|)
    requires RecordWithinLimits(r) && |Data(rs + [r])| < UINT64
    ensures Tile(Extents(Entries(rs + [r])), 0, |Data(rs + [r])|)
  {
    hide *;
    ExtentsOfRecords(rs, r);
    RecordTiles(r, |Data(rs)|);
    TileAppend(Extents(Entries(rs)), CaseExtents(CasesAt(r.cases, |Data(rs)|)), 0, |Data(rs)|, |Data(rs + [r])|);
  }

  lemma DataGrows(rs: seq<Record>, r: Record)
    ensures |Data(rs)| <= |Data(rs + [r])|
  {
    hide CaseData;
    assert (rs + [r])[..|rs|] == rs;
  }

  /** The extents written to the index tile the data section, in order. */
  lemma {:induction false} DataTiling(rs: seq<Record>)
    requires forall k :: 0 <= k < |rs| ==> RecordWithinLimits(rs[k])
    requires |Data(rs)| < UINT64
    ensures Tile(Extents(Entries(rs)), 0, |Data(rs)|)
  {
    if rs != [] {
      var n := |rs| - 1;
      var front, r := rs[..n], rs[n];
      assert RecordWithinLimits(r) && rs == front + [r] && forall k | 0 <= k < n :: front[k] == rs[k];
      hide *;
      DataGrows(front, r);
      DataTiling(front);
      OneMoreTile(front, r);
    }
  }

  // ---- From input lines to an answer ----

  /** The line is a record that the import writes, for this problem. */
  ghost predicate IsRecordOf(l: Line, contestID: nat, index: bytes) {
    && l.Rec? && l.record.contestID != 0 && l.record.index != []
    && l.record.contestID % UINT32 == contestID && l.record.index == index
  }

  lemma {:induction false} LastForIsLast(rs: seq<Record>, contestID: nat, index: bytes)
    ensures var j := LastFor(rs, contestID, index);
      && (j >= 0 ==> rs[j].contestID % UINT32 == contestID && rs[j].index == index)
      && (forall k | j < k < |rs| :: !(rs[k].contestID % UINT32 == contestID && rs[k].index == index))
  {
    if rs != [] { LastForIsLast(rs[..|rs| - 1], contestID, index); }
  }

  /** The last record for a problem is that of the last line for it. */
  lemma LastLine(lines: seq<Line>, contestID: nat, index: bytes)
    ensures var j := LastFor(Records(lines), contestID, index);
      && (j < 0 <==> forall k | 0 <= k < |lines| :: !IsRecordOf(lines[k], contestID, index))
      && (forall k | 0 <= k < |lines| ::
            IsRecordOf(lines[k], contestID, index)
            && (forall i :: k < i < |lines| ==> !IsRecordOf(lines[i], contestID, index)) ==>
              j >= 0 && Records(lines)[j] == lines[k].record)
  {
    hide LastFor, Records, UsableLines;
    LastForIsLast(Records(lines), contestID, index);
    RecordsAt(lines);
    var j, at := LastFor(Records(lines), contestID, index), UsableLines(lines);
    forall k | 0 <= k < |lines| && IsRecordOf(lines[k], contestID, index)
      ensures exists i :: 0 <= i <= j && at[i] == k
    {
      assert k in at;
    }
    if j >= 0 {
      assert at[j] in at && IsRecordOf(lines[at[j]], contestID, index);
    }
  }

  /**
    Build, read, look up: for every input the builder accepts within the limits, and every
    problem and case number, the answer comes from the last line of the input for the problem.
  */
  method BuildThenGet(files: seq<seq<Line>>, contestID: nat, index: bytes, caseNumber: nat) returns (found: Lookup)
    requires forall l :: l in AllLines(files) ==>
               !l.Malformed?
               && (l.Rec? && l.record.contestID != 0 && l.record.index != [] ==> |l.record.index| <= 255)
    requires WithinLimits(Records(AllLines(files))) && contestID < UINT32
    ensures var lines := AllLines(files);
      && ((forall k | 0 <= k < |lines| :: !IsRecordOf(lines[k], contestID, index)) ==> found == NotFound)
      && (forall k | 0 <= k < |lines| ::
            IsRecordOf(lines[k], contestID, index)
            && (forall i :: k < i < |lines| ==> !IsRecordOf(lines[i], contestID, index)) ==>
              var cases := lines[k].record.cases;
              found == if caseNumber < |cases| then Found(cases[caseNumber].input, cases[caseNumber].output, |cases|)
                       else OutOfRange(|cases|))
  {
    hide WithinLimits, File, ReadFile, Get, AllLines, Records, UsableLines, IsRecordOf;
    var file, ok := BuildBinary(files);
    RoundTrip(Records(AllLines(files)), contestID, index, caseNumber);
    LastLine(AllLines(files), contestID, index);
    var reader := NewReader(file);
    found := Get(reader.value, contestID, index, caseNumber);
  }
}
