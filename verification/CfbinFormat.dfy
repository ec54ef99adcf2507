/** The binary container: its 48-byte header and the grammar of its index. */
module CfbinFormat {
  import opened Prelude
  import opened LittleEndian

  type bytes = seq<byte>

  // ---- The header ----

  /** "CFPDBIN1" */
  const MAGIC: bytes := [67, 70, 80, 68, 66, 73, 78, 49]
  const VERSION: nat := 1
  const HEADER_SIZE: nat := 48

  datatype Header = Header(
    magic: bytes, version: nat, reserved: nat,
    dataOffset: nat, dataSize: nat, indexOffset: nat, indexSize: nat)
  {
    predicate Fits() {
      && |magic| == 8 && version < UINT32 && reserved < UINT32
      && dataOffset < UINT64 && dataSize < UINT64 && indexOffset < UINT64 && indexSize < UINT64
    }
  }

  datatype ReadError =
    | TooSmall | BadMagic | BadVersion | BadDataOffset | IndexOutOfBounds | Truncated
    | SliceOutOfBounds
    | SliceBoundsPanic  // the process would stop with a run-time error

  function NewHeader(dataSize: nat, indexSize: nat): Header {
    Header(MAGIC, VERSION, 0, HEADER_SIZE, dataSize, (HEADER_SIZE + dataSize) % UINT64, indexSize)
  }

  function WriteHeader(h: Header): bytes {
    h.magic + LE(h.version, 4) + LE(h.reserved, 4)
    + LE(h.dataOffset, 8) + LE(h.dataSize, 8) + LE(h.indexOffset, 8) + LE(h.indexSize, 8)
  }

  function HeaderFields(bs: bytes): Header
    requires |bs| == HEADER_SIZE
  {
    Header(bs[..8], FromLE(bs[8..12]), FromLE(bs[12..16]),
           FromLE(bs[16..24]), FromLE(bs[24..32]), FromLE(bs[32..40]), FromLE(bs[40..48]))
  }

  function ReadHeader(bs: bytes): Result<Header, ReadError>
    requires |bs| == HEADER_SIZE
  {
    var h := HeaderFields(bs);
    if h.magic != MAGIC then Err(BadMagic)
    else if h.version != VERSION then Err(BadVersion)
    else if h.dataOffset != HEADER_SIZE then Err(BadDataOffset)
    else Ok(h)
  }

  lemma HeaderReadsBack(h: Header)
    requires h.Fits()
    ensures |WriteHeader(h)| == HEADER_SIZE && HeaderFields(WriteHeader(h)) == h
  {
    Widths();
    var bs := WriteHeader(h);
    assert bs[..8] == h.magic;
    assert bs[8..12] == LE(h.version, 4) && bs[12..16] == LE(h.reserved, 4);
    assert bs[16..24] == LE(h.dataOffset, 8) && bs[24..32] == LE(h.dataSize, 8);
    assert bs[32..40] == LE(h.indexOffset, 8) && bs[40..48] == LE(h.indexSize, 8);
    ReadBack(h.version, 4);
    ReadBack(h.reserved, 4);
    ReadBack(h.dataOffset, 8);
    ReadBack(h.dataSize, 8);
    ReadBack(h.indexOffset, 8);
    ReadBack(h.indexSize, 8);
  }

  /** The header's 48 bytes: magic, version 1, a reserved 0, and where the two sections begin and how large they are. */
  lemma HeaderBytes(dataSize: nat, indexSize: nat)
    ensures WriteHeader(NewHeader(dataSize, indexSize))
            == [67, 70, 80, 68, 66, 73, 78, 49] + [1, 0, 0, 0] + [0, 0, 0, 0] + [48, 0, 0, 0, 0, 0, 0, 0]
               + LE(dataSize, 8) + LE((48 + dataSize) % UINT64, 8) + LE(indexSize, 8)
  {
    SmallNumber(1, 4);
    SmallNumber(0, 4);
    SmallNumber(48, 8);
    hide LE;
  }

  lemma SmallNumber(n: nat, w: nat)
    requires n < 256 && (w == 4 || w == 8)
    ensures LE(n, w) == if w == 4 then [n, 0, 0, 0] else [n, 0, 0, 0, 0, 0, 0, 0]
  {
    Zeroes();
    assert LE(n, w) == [n % 256] + LE(n / 256, w - 1);
  }

  lemma Zeroes()
    ensures LE(0, 3) == [0, 0, 0] && LE(0, 7) == [0, 0, 0, 0, 0, 0, 0]
  {
    assert LE(0, 2) == [0, 0];
    assert LE(0, 4) == [0, 0, 0, 0];
    assert LE(0, 6) == [0, 0, 0, 0, 0, 0];
  }

  lemma SevenParts(bs: bytes)
    requires |bs| == HEADER_SIZE
    ensures bs == bs[..8] + bs[8..12] + bs[12..16] + bs[16..24] + bs[24..32] + bs[32..40] + bs[40..48]
  {}

  /** No two byte strings have the same fields, and the fields of 48 bytes always fit. */
  lemma HeaderWritesBack(bs: bytes)
    requires |bs| == HEADER_SIZE
    ensures HeaderFields(bs).Fits() && WriteHeader(HeaderFields(bs)) == bs
  {
    hide LE, FromLE, Pow256;
    Widths();
    SevenParts(bs);
    WriteBack(bs[8..12]);
    WriteBack(bs[12..16]);
    WriteBack(bs[16..24]);
    WriteBack(bs[24..32]);
    WriteBack(bs[32..40]);
    WriteBack(bs[40..48]);
    FromLEBound(bs[8..12]);
    FromLEBound(bs[12..16]);
    FromLEBound(bs[16..24]);
    FromLEBound(bs[24..32]);
    FromLEBound(bs[32..40]);
    FromLEBound(bs[40..48]);
  }

  // ---- The index ----

  datatype CaseEntry = CaseEntry(inputOffset: nat, inputLength: nat, outputOffset: nat, outputLength: nat) {
    predicate Fits() {
      inputOffset < UINT64 && inputLength < UINT32 && outputOffset < UINT64 && outputLength < UINT32
    }
  }

  datatype ProblemEntry = ProblemEntry(contestID: nat, index: bytes, cases: seq<CaseEntry>) {
    predicate Fits() {
      && contestID < UINT32 && |index| <= 255 && |cases| < UINT32
      && forall c :: c in cases ==> c.Fits()
    }
  }

  const CASE_SIZE: nat := 24

  function EncodeCase(c: CaseEntry): (bs: bytes)
    ensures |bs| == CASE_SIZE
  {
    LE(c.inputOffset, 8) + LE(c.inputLength, 4) + LE(c.outputOffset, 8) + LE(c.outputLength, 4)
  }

  function EncodeCases(cs: seq<CaseEntry>): bytes {
    if cs == [] then [] else EncodeCase(cs[0]) + EncodeCases(cs[1..])
  }

  /** What comes before the cases; the count is cut to four bytes. */
  function EncodeHead(contestID: nat, index: bytes, count: nat): bytes {
    LE(contestID, 4) + LE(|index|, 1) + index + LE(count % UINT32, 4)
  }

  function EncodeEntry(e: ProblemEntry): bytes {
    EncodeHead(e.contestID, e.index, |e.cases|) + EncodeCases(e.cases)
  }

  function EncodeIndex(es: seq<ProblemEntry>): bytes {
    if es == [] then [] else EncodeEntry(es[0]) + EncodeIndex(es[1..])
  }

  function ParseCase(bs: bytes): CaseEntry
    requires |bs| >= CASE_SIZE
  {
    CaseEntry(FromLE(bs[..8]), FromLE(bs[8..12]), FromLE(bs[12..20]), FromLE(bs[20..24]))
  }

  /** Reads `n` cases, and returns what is left. */
  function ParseCases(bs: bytes, n: nat): (r: Option<(seq<CaseEntry>, bytes)>)
    ensures r.Some? ==> |r.value.0| == n && |r.value.1| + CASE_SIZE * n == |bs|
  {
    if n == 0 then Some(([], bs))
    else if |bs| < CASE_SIZE then None
    else
      match ParseCases(bs[CASE_SIZE..], n - 1)
      case Some((cs, rest)) => Some(([ParseCase(bs)] + cs, rest))
      case None => None
  }

  /** Reads one entry, and returns what is left. An entry takes at least nine bytes. */
  function ParseEntry(bs: bytes): (r: Option<(ProblemEntry, bytes)>)
    ensures r.Some? ==> |r.value.1| + 9 <= |bs|
  {
    var n: nat := if |bs| < 5 then 0 else bs[4];
    if |bs| < 9 + n then None
    else
      match ParseCases(bs[9 + n..], FromLE(bs[5 + n..9 + n]))
      case Some((cs, rest)) => Some((ProblemEntry(FromLE(bs[..4]), bs[5..5 + n], cs), rest))
      case None => None
  }

  function ParseIndex(bs: bytes): Option<seq<ProblemEntry>>
    decreases |bs|
  {
    if bs == [] then Some([])
    else
      match ParseEntry(bs)
      case Some((e, rest)) =>
        (match ParseIndex(rest)
         case Some(es) => Some([e] + es)
         case None => None)
      case None => None
  }

  lemma CaseReadsBack(c: CaseEntry, rest: bytes)
    requires c.Fits()
    ensures ParseCase(EncodeCase(c) + rest) == c
  {
    Widths();
    var bs := EncodeCase(c) + rest;
    assert bs[..8] == LE(c.inputOffset, 8) && bs[8..12] == LE(c.inputLength, 4);
    assert bs[12..20] == LE(c.outputOffset, 8) && bs[20..24] == LE(c.outputLength, 4);
    ReadBack(c.inputOffset, 8);
    ReadBack(c.inputLength, 4);
    ReadBack(c.outputOffset, 8);
    ReadBack(c.outputLength, 4);
  }

  lemma CaseWritesBack(bs: bytes)
    requires |bs| >= CASE_SIZE
    ensures ParseCase(bs).Fits() && EncodeCase(ParseCase(bs)) == bs[..CASE_SIZE]
  {
    Widths();
    WriteBack(bs[..8]);
    WriteBack(bs[8..12]);
    WriteBack(bs[12..20]);
    WriteBack(bs[20..24]);
    FromLEBound(bs[..8]);
    FromLEBound(bs[8..12]);
    FromLEBound(bs[12..20]);
    FromLEBound(bs[20..24]);
  }

  lemma {:induction false} CasesReadBack(cs: seq<CaseEntry>, rest: bytes)
    requires forall c :: c in cs ==> c.Fits()
    ensures ParseCases(EncodeCases(cs) + rest, |cs|) == Some((cs, rest))
  {
    var bs := EncodeCases(cs) + rest;
    if cs == [] {
      assert bs == rest;
    } else {
      var tail := EncodeCases(cs[1..]) + rest;
      assert bs == EncodeCase(cs[0]) + tail && bs[CASE_SIZE..] == tail;
      CaseReadsBack(cs[0], tail);
      CasesReadBack(cs[1..], rest);
      assert [cs[0]] + cs[1..] == cs;
    }
  }

  lemma {:induction false} CasesWriteBack(bs: bytes, n: nat)
    requires ParseCases(bs, n).Some?
    ensures var (cs, rest) := ParseCases(bs, n).value;
      bs == EncodeCases(cs) + rest && forall c :: c in cs ==> c.Fits()
  {
    hide EncodeCase, ParseCase;
    if n > 0 {
      CaseWritesBack(bs);
      CasesWriteBack(bs[CASE_SIZE..], n - 1);
      var (cs, rest) := ParseCases(bs, n).value;
      assert cs[1..] == ParseCases(bs[CASE_SIZE..], n - 1).value.0;
      Regroup(bs[..CASE_SIZE], EncodeCases(cs[1..]), rest);
      assert bs == bs[..CASE_SIZE] + bs[CASE_SIZE..];
    }
  }

  lemma HeadSlices(a: bytes, b: bytes, c: bytes, d: bytes, e: bytes)
    requires |a| == |d| == 4 && |b| == 1
    ensures var s, n := a + b + c + d + e, |c|;
      && |s| >= 9 + n && s[..4] == a && s[4] == b[0]
      && s[5..5 + n] == c && s[5 + n..9 + n] == d && s[9 + n..] == e
  {}

  lemma ParsesAs(bs: bytes, n: nat, cs: seq<CaseEntry>, rest: bytes)
    requires |bs| >= 9 + n && bs[4] == n
    requires ParseCases(bs[9 + n..], FromLE(bs[5 + n..9 + n])) == Some((cs, rest))
    ensures ParseEntry(bs) == Some((ProblemEntry(FromLE(bs[..4]), bs[5..5 + n], cs), rest))
  {}

  lemma FieldsReadBack(e: ProblemEntry)
    requires e.Fits()
    ensures FromLE(LE(e.contestID, 4)) == e.contestID
    ensures FromLE(LE(|e.cases| % UINT32, 4)) == |e.cases|
    ensures LE(|e.index|, 1)[0] == |e.index|
  {
    hide LE, FromLE, Pow256;
    Widths();
    OneByte(|e.index|);
    ReadBack(e.contestID, 4);
    ReadBack(|e.cases|, 4);
  }

  lemma EntryReadsBack(e: ProblemEntry, rest: bytes)
    requires e.Fits()
    ensures ParseEntry(EncodeEntry(e) + rest) == Some((e, rest))
  {
    hide LE, FromLE, EncodeCases, ParseCases, ParseEntry;
    FieldsReadBack(e);
    CasesReadBack(e.cases, rest);
    Regroup(EncodeHead(e.contestID, e.index, |e.cases|), EncodeCases(e.cases), rest);
    HeadSlices(LE(e.contestID, 4), LE(|e.index|, 1), e.index, LE(|e.cases| % UINT32, 4), EncodeCases(e.cases) + rest);
    ParsesAs(EncodeEntry(e) + rest, |e.index|, e.cases, rest);
  }

  lemma FiveParts(bs: bytes, n: nat)
    requires |bs| >= 9 + n && bs[4] == n
    ensures bs == bs[..4] + LE(n, 1) + bs[5..5 + n] + bs[5 + n..9 + n] + bs[9 + n..]
  {
    assert LE(n, 1) == [n];
  }

  lemma EntryFields(bs: bytes)
    requires ParseEntry(bs).Some?
    ensures var (e, rest), n: nat := ParseEntry(bs).value, bs[4];
      && e.Fits() && |e.index| == n
      && LE(e.contestID, 4) == bs[..4] && e.index == bs[5..5 + n] && LE(|e.cases|, 4) == bs[5 + n..9 + n]
      && bs[9 + n..] == EncodeCases(e.cases) + rest
  {
    var n: nat := bs[4];
    CasesWriteBack(bs[9 + n..], FromLE(bs[5 + n..9 + n]));
    WriteBack(bs[..4]);
    WriteBack(bs[5 + n..9 + n]);
    FromLEBound(bs[..4]);
    FromLEBound(bs[5 + n..9 + n]);
    Widths();
  }

  lemma Regroup4(a: bytes, b: bytes, c: bytes, d: bytes)
    ensures a + (b + c + d) == a + b + c + d
  {}

  lemma Regroup5(a: bytes, b: bytes, c: bytes, d: bytes, e: bytes)
    ensures a + (b + c + d + e) == a + b + c + d + e
  {}

  lemma EntryWritesBack(bs: bytes)
    requires ParseEntry(bs).Some?
    ensures var (e, rest) := ParseEntry(bs).value; e.Fits() && bs == EncodeEntry(e) + rest
  {
    hide LE, FromLE, Pow256, EncodeCases, ParseCases;
    EntryFields(bs);
    FiveParts(bs, bs[4]);
    var (e, rest) := ParseEntry(bs).value;
    hide ParseEntry;
    Regroup(EncodeHead(e.contestID, e.index, |e.cases|), EncodeCases(e.cases), rest);
  }

  lemma {:induction false} IndexReadsBack(es: seq<ProblemEntry>)
    requires forall e :: e in es ==> e.Fits()
    ensures ParseIndex(EncodeIndex(es)) == Some(es)
  {
    if es != [] {
      EntryReadsBack(es[0], EncodeIndex(es[1..]));
      IndexReadsBack(es[1..]);
      assert [es[0]] + es[1..] == es;
    }
  }

  lemma {:induction false} IndexWritesBack(bs: bytes)
    requires ParseIndex(bs).Some?
    ensures EncodeIndex(ParseIndex(bs).value) == bs && forall e :: e in ParseIndex(bs).value ==> e.Fits()
    decreases |bs|
  {
    if bs != [] {
      EntryWritesBack(bs);
      var (e, rest) := ParseEntry(bs).value;
      IndexWritesBack(rest);
      assert ParseIndex(bs).value[1..] == ParseIndex(rest).value;
    }
  }

  // ---- Where a field stands ----

  lemma {:induction false} CaseAtOffset(cs: seq<CaseEntry>, k: nat)
    requires k < |cs|
    ensures |EncodeCases(cs)| >= 24 * k + 24
    ensures EncodeCases(cs)[24 * k..24 * k + 24] == EncodeCase(cs[k])
  {
    hide EncodeCase;
    if k > 0 {
      CaseAtOffset(cs[1..], k - 1);
      var tail := EncodeCases(cs[1..]);
      assert EncodeCases(cs)[24..] == tail;
      assert tail[24 * (k - 1)..24 * k] == EncodeCases(cs)[24 * k..24 * k + 24];
    }
  }

  lemma CaseLayout(c: CaseEntry)
    ensures var bs := EncodeCase(c);
      && bs[..8] == LE(c.inputOffset, 8) && bs[8..12] == LE(c.inputLength, 4)
      && bs[12..20] == LE(c.outputOffset, 8) && bs[20..24] == LE(c.outputLength, 4)
  {
    hide LE;
  }

  /** An entry's bytes: contest, length of the index, index, number of cases, then 24 bytes for each case. */
  lemma EntryLayout(e: ProblemEntry, k: nat)
    requires e.Fits() && k < |e.cases|
    ensures var bs, n, at := EncodeEntry(e), |e.index|, 9 + |e.index| + 24 * k;
      && |bs| >= at + 24
      && bs[..4] == LE(e.contestID, 4) && bs[4] == n && bs[5..5 + n] == e.index && bs[5 + n..9 + n] == LE(|e.cases|, 4)
      && bs[at..at + 8] == LE(e.cases[k].inputOffset, 8) && bs[at + 8..at + 12] == LE(e.cases[k].inputLength, 4)
      && bs[at + 12..at + 20] == LE(e.cases[k].outputOffset, 8) && bs[at + 20..at + 24] == LE(e.cases[k].outputLength, 4)
  {
    hide *;
    EntryHead(e);
    CaseAtOffset(e.cases, k);
    CaseLayout(e.cases[k]);
    PartOfRest(EncodeEntry(e), 9 + |e.index|, EncodeCases(e.cases), 24 * k);
    PartsOfPart(EncodeEntry(e), 9 + |e.index| + 24 * k, EncodeCase(e.cases[k]));
  }

  lemma EntryHead(e: ProblemEntry)
    requires e.Fits()
    ensures var bs, n := EncodeEntry(e), |e.index|;
      && |bs| == 9 + n + |EncodeCases(e.cases)| && bs[9 + n..] == EncodeCases(e.cases)
      && bs[..4] == LE(e.contestID, 4) && bs[4] == n && bs[5..5 + n] == e.index && bs[5 + n..9 + n] == LE(|e.cases|, 4)
  {
    OneByte(|e.index|);
    hide EncodeCases, LE;
    HeadSlices(LE(e.contestID, 4), LE(|e.index|, 1), e.index, LE(|e.cases|, 4), EncodeCases(e.cases));
  }

  lemma PartOfRest(bs: bytes, p: nat, rest: bytes, i: nat)
    requires p <= |bs| && bs[p..] == rest && i + 24 <= |rest|
    ensures bs[p + i..p + i + 24] == rest[i..i + 24]
  {
    assert bs[p..][i..i + 24] == bs[p + i..p + i + 24];
  }

  lemma PartsOfPart(bs: bytes, at: nat, c: bytes)
    requires |c| == 24 && at + 24 <= |bs| && bs[at..at + 24] == c
    ensures bs[at..at + 8] == c[..8] && bs[at + 8..at + 12] == c[8..12]
    ensures bs[at + 12..at + 20] == c[12..20] && bs[at + 20..at + 24] == c[20..24]
  {
    assert forall i: int | 0 <= i < 24 :: bs[at + i] == c[i];
  }

  /** The index grammar is exact: parsing yields `es` just when the bytes are `es` encoded. */
  lemma IndexGrammarExact(bs: bytes, es: seq<ProblemEntry>)
    ensures ParseIndex(bs) == Some(es) <==> bs == EncodeIndex(es) && forall e :: e in es ==> e.Fits()
  {
    if ParseIndex(bs).Some? { IndexWritesBack(bs); }
    if forall e :: e in es ==> e.Fits() { IndexReadsBack(es); }
  }
}
