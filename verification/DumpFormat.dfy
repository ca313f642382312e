/** The packed dump file: the agent's writer and the training tool's reader. */
module DumpFormat {
  import opened Widths
  import opened Trace

  const HEADER_SIZE := 80
  const RECORD_SIZE := 8
  const ID_FIELD := 64

  datatype Header = Header(version: u32, vocabSize: u32, containerId: ContainerId, startNs: u64)

  /** A file shorter than a header is an error; anything longer parses. */
  datatype ParseResult = TooSmall(size: nat) | Parsed(header: Header, records: seq<PackedRecord>)

  // ---- little-endian integers ----

  function Pow256(w: nat): nat { if w == 0 then 1 else 256 * Pow256(w - 1) }

  function Le(n: nat, w: nat): (b: seq<byte>)
    ensures |b| == w
  {
    if w == 0 then [] else [n % 256] + Le(n / 256, w - 1)
  }

  function FromLe(b: seq<byte>): nat { if b == [] then 0 else b[0] + 256 * FromLe(b[1..]) }

  lemma {:induction false} LeRoundTrip(n: nat, w: nat)
    requires n < Pow256(w)
    ensures FromLe(Le(n, w)) == n
  {
    if w > 0 {
      LeRoundTrip(n / 256, w - 1);
      assert Le(n, w)[1..] == Le(n / 256, w - 1);
    }
  }

  lemma {:induction false} FromLeBound(b: seq<byte>)
    ensures FromLe(b) < Pow256(|b|)
  {
    if b != [] { FromLeBound(b[1..]); }
  }

  lemma Pow256Values()
    ensures Pow256(2) == 0x1_0000 && Pow256(4) == TWO32 && Pow256(8) == TWO64
  {
    assert Pow256(2) == 256 * Pow256(1);
    assert Pow256(4) == 256 * (256 * Pow256(2));
    assert Pow256(6) == 256 * (256 * Pow256(4));
  }

  function ReadU16(b: seq<byte>): u16 requires |b| == 2 { Pow256Values(); FromLeBound(b); FromLe(b) }
  function ReadU32(b: seq<byte>): u32 requires |b| == 4 { Pow256Values(); FromLeBound(b); FromLe(b) }
  function ReadU64(b: seq<byte>): u64 requires |b| == 8 { Pow256Values(); FromLeBound(b); FromLe(b) }

  // ---- the writer ----

  /** A string as C sees it: up to its first NUL. */
  function CString(id: ContainerId): ContainerId {
    if id == [] || id[0] == 0 then [] else [id[0]] + CString(id[1..])
  }

  /** What of an id survives in the 64-byte field, whose last byte is always NUL. */
  function StoredId(id: ContainerId): (s: ContainerId)
    ensures |s| < ID_FIELD
  {
    var c := CString(id);
    if |c| < ID_FIELD then c else c[..ID_FIELD - 1]
  }

  function Zeros(n: nat): seq<byte> { seq(n, _ => 0) }

  function IdField(id: ContainerId): (b: seq<byte>)
    ensures |b| == ID_FIELD
  {
    StoredId(id) + Zeros(ID_FIELD - |StoredId(id)|)
  }

  function EncodeHeader(h: Header): (b: seq<byte>)
    ensures |b| == HEADER_SIZE
  {
    Le(h.version, 4) + Le(h.vocabSize, 4) + IdField(h.containerId) + Le(h.startNs, 8)
  }

  function EncodeRecord(r: PackedRecord): (b: seq<byte>)
    ensures |b| == RECORD_SIZE
  {
    Le(r.deltaUs, 4) + Le(r.syscallId, 2) + [r.argClass, r.argBucket]
  }

  function EncodeRecords(rs: seq<PackedRecord>): (b: seq<byte>)
    ensures |b| == 8 * |rs|
  {
    if rs == [] then [] else EncodeRecords(rs[..|rs| - 1]) + EncodeRecord(rs[|rs| - 1])
  }

  lemma EncodeRecordsExtend(rs: seq<PackedRecord>, r: PackedRecord)
    ensures EncodeRecords(rs + [r]) == EncodeRecords(rs) + EncodeRecord(r)
  {
    assert (rs + [r])[..|rs|] == rs;
  }

  // ---- the reader ----

  function RStrip(b: seq<byte>): seq<byte> {
    if b != [] && b[|b| - 1] == 0 then RStrip(b[..|b| - 1]) else b
  }

  function DecodeHeader(b: seq<byte>): Header
    requires |b| == HEADER_SIZE
  {
    Header(ReadU32(b[..4]), ReadU32(b[4..8]), RStrip(b[8..72]), ReadU64(b[72..80]))
  }

  function DecodeRecord(b: seq<byte>): PackedRecord
    requires |b| == RECORD_SIZE
  {
    Record(ReadU32(b[..4]), ReadU16(b[4..6]), b[6], b[7])
  }

  /** The whole eight-byte groups of `b`, decoded; a shorter tail is dropped. */
  function DecodeRecords(b: seq<byte>): (rs: seq<PackedRecord>)
    ensures |rs| == |b| / 8
  {
    seq(|b| / 8, i requires 0 <= i < |b| / 8 => DecodeRecord(b[8 * i..8 * i + 8]))
  }

  function Parse(file: seq<byte>): ParseResult {
    if |file| < HEADER_SIZE then TooSmall(|file|)
    else Parsed(DecodeHeader(file[..HEADER_SIZE]), DecodeRecords(file[HEADER_SIZE..]))
  }

  /** The reader's loop: read a record at a time until fewer than eight bytes come back. */
  method ParseDumpFile(file: seq<byte>) returns (r: ParseResult)
    ensures r == Parse(file)
  {
    if |file| < HEADER_SIZE {
      return TooSmall(|file|);
    }
    var header := DecodeHeader(file[..HEADER_SIZE]);
    var body := file[HEADER_SIZE..];
    var records: seq<PackedRecord> := [];
    var pos := 0;
    while true
      invariant pos == 8 * |records| <= |body|
      invariant forall i :: 0 <= i < |records| ==> records[i] == DecodeRecord(body[8 * i..8 * i + 8])
      decreases |body| - pos
    {
      var recordBytes := body[pos..if pos + RECORD_SIZE <= |body| then pos + RECORD_SIZE else |body|];
      if |recordBytes| < RECORD_SIZE {
        break;
      }
      records := records + [DecodeRecord(recordBytes)];
      pos := pos + RECORD_SIZE;
    }
    assert records == DecodeRecords(body);
    r := Parsed(header, records);
  }

  // ---- round trips ----

  lemma {:induction false} CStringHasNoNul(id: ContainerId)
    ensures 0 !in CString(id)
    ensures 0 !in id ==> CString(id) == id
  {
    if id != [] && id[0] != 0 { CStringHasNoNul(id[1..]); }
  }

  lemma {:induction false} RStripDropsPadding(s: seq<byte>, n: nat)
    requires 0 !in s
    ensures RStrip(s + Zeros(n)) == s
  {
    if n == 0 {
      assert s + Zeros(n) == s;
    } else {
      RStripDropsPadding(s, n - 1);
      assert (s + Zeros(n))[..|s| + n - 1] == s + Zeros(n - 1);
    }
  }

  lemma FieldsOf(a: seq<byte>, b: seq<byte>, c: seq<byte>, d: seq<byte>)
    requires |a| == 4 && |b| == 4 && |c| == ID_FIELD && |d| == 8
    ensures var h := a + b + c + d;
            h[..4] == a && h[4..8] == b && h[8..72] == c && h[72..80] == d
  {
  }

  /** A header reads back with its id cut at the first NUL and to 63 bytes, and otherwise unchanged. */
  lemma HeaderRoundTrip(h: Header)
    ensures DecodeHeader(EncodeHeader(h)) == h.(containerId := StoredId(h.containerId))
    ensures 0 !in h.containerId && |h.containerId| < ID_FIELD ==> DecodeHeader(EncodeHeader(h)) == h
  {
    hide Le, FromLe, Pow256, CString, RStrip, Zeros;
    var b := EncodeHeader(h);
    Pow256Values();
    LeRoundTrip(h.version, 4);
    LeRoundTrip(h.vocabSize, 4);
    LeRoundTrip(h.startNs, 8);
    CStringHasNoNul(h.containerId);
    RStripDropsPadding(StoredId(h.containerId), ID_FIELD - |StoredId(h.containerId)|);
    FieldsOf(Le(h.version, 4), Le(h.vocabSize, 4), IdField(h.containerId), Le(h.startNs, 8));
  }

  lemma RecordRoundTrip(r: PackedRecord)
    ensures DecodeRecord(EncodeRecord(r)) == r
  {
    var b := EncodeRecord(r);
    Pow256Values();
    LeRoundTrip(r.deltaUs, 4);
    LeRoundTrip(r.syscallId, 2);
    assert b[..4] == Le(r.deltaUs, 4);
    assert b[4..6] == Le(r.syscallId, 2);
  }

  lemma DecodeRecordsExtend(a: seq<byte>, t: seq<byte>)
    requires |a| % 8 == 0 && |t| == 8
    ensures DecodeRecords(a + t) == DecodeRecords(a) + [DecodeRecord(t)]
  {
    hide DecodeRecord;
    var rs, n := DecodeRecords(a + t), |a| / 8;
    assert |rs| == n + 1;
    forall i | 0 <= i < n ensures rs[i] == DecodeRecords(a)[i] {
      assert (a + t)[8 * i..8 * i + 8] == a[8 * i..8 * i + 8];
    }
    assert (a + t)[8 * n..8 * n + 8] == t;
  }

  lemma NoRecords()
    ensures DecodeRecords([]) == [] && EncodeRecords([]) == []
  {
  }

  /** A last group of fewer than eight bytes is not read. */
  lemma DecodeRecordsDropsTail(a: seq<byte>, t: seq<byte>)
    requires |a| % 8 == 0 && |t| < 8
    ensures DecodeRecords(a + t) == DecodeRecords(a)
  {
    hide DecodeRecord;
    var rs, n := DecodeRecords(a + t), |a| / 8;
    assert |rs| == n;
    forall i | 0 <= i < n ensures rs[i] == DecodeRecords(a)[i] {
      assert (a + t)[8 * i..8 * i + 8] == a[8 * i..8 * i + 8];
    }
  }

  lemma {:induction false} RecordsRoundTrip(rs: seq<PackedRecord>)
    ensures DecodeRecords(EncodeRecords(rs)) == rs
  {
    hide EncodeRecord, DecodeRecord, DecodeRecords;
    if rs == [] {
      NoRecords();
    } else {
      var n := |rs| - 1;
      RecordsRoundTrip(rs[..n]);
      RecordRoundTrip(rs[n]);
      DecodeRecordsExtend(EncodeRecords(rs[..n]), EncodeRecord(rs[n]));
    }
  }

  lemma {:induction false} EncodedPrefix(rs: seq<PackedRecord>, k: nat)
    requires k <= |rs|
    ensures EncodeRecords(rs)[..8 * k] == EncodeRecords(rs[..k])
  {
    hide EncodeRecord;
    if k == |rs| {
      assert rs[..k] == rs;
    } else {
      var n := |rs| - 1;
      EncodedPrefix(rs[..n], k);
      assert rs[..n][..k] == rs[..k];
      assert EncodeRecords(rs)[..8 * k] == EncodeRecords(rs[..n])[..8 * k];
    }
  }

  lemma SplitPrefix(b: seq<byte>, i: nat, j: nat)
    requires i <= j <= |b|
    ensures b[..j] == b[..i] + b[i..j]
  {
  }

  /** `k` whole records and a tail of fewer than eight bytes. */
  lemma RecordsOfGroups(rs: seq<PackedRecord>, k: nat, length: nat)
    requires 8 * k <= length < 8 * k + 8 && length <= 8 * |rs|
    ensures DecodeRecords(EncodeRecords(rs)[..length]) == rs[..k]
  {
    hide DecodeRecords, EncodeRecords;
    EncodedPrefix(rs, k);
    RecordsRoundTrip(rs[..k]);
    SplitPrefix(EncodeRecords(rs), 8 * k, length);
    DecodeRecordsDropsTail(EncodeRecords(rs[..k]), EncodeRecords(rs)[8 * k..length]);
  }

  lemma RecordsOfPrefix(rs: seq<PackedRecord>, length: nat)
    requires length <= 8 * |rs|
    ensures DecodeRecords(EncodeRecords(rs)[..length]) == rs[..length / 8]
  {
    hide DecodeRecords, EncodeRecords;
    RecordsOfGroups(rs, length / 8, length);
  }

  /** Any byte prefix of a written file parses to exactly the records that lie whole inside it. */
  lemma ParseOfPrefix(h: Header, rs: seq<PackedRecord>, length: nat)
    requires length <= HEADER_SIZE + 8 * |rs|
    ensures var file := EncodeHeader(h) + EncodeRecords(rs);
            && |file| == HEADER_SIZE + 8 * |rs|
            && Parse(file[..length]) ==
               if length < HEADER_SIZE then TooSmall(length)
               else Parsed(h.(containerId := StoredId(h.containerId)), rs[..(length - HEADER_SIZE) / 8])
  {
    hide EncodeRecords, DecodeRecords, EncodeHeader, DecodeHeader;
    if HEADER_SIZE <= length {
      HeaderRoundTrip(h);
      RecordsOfPrefix(rs, length - HEADER_SIZE);
      var file := (EncodeHeader(h) + EncodeRecords(rs))[..length];
      assert file[..HEADER_SIZE] == EncodeHeader(h);
      assert file[HEADER_SIZE..] == EncodeRecords(rs)[..length - HEADER_SIZE];
    }
  }

  /** A whole written file gives back its header and its records. */
  lemma ParseOfFile(h: Header, rs: seq<PackedRecord>)
    ensures Parse(EncodeHeader(h) + EncodeRecords(rs)) == Parsed(h.(containerId := StoredId(h.containerId)), rs)
  {
    var file := EncodeHeader(h) + EncodeRecords(rs);
    ParseOfPrefix(h, rs, |file|);
    assert file[..|file|] == file;
    assert rs[..|rs|] == rs;
  }

  lemma DigitSplit(d: byte, n: nat)
    ensures (d + 256 * n) % 256 == d && (d + 256 * n) / 256 == n
  {
  }

  lemma {:induction false} FromLeRoundTrip(b: seq<byte>)
    ensures Le(FromLe(b), |b|) == b
  {
    if b != [] {
      FromLeRoundTrip(b[1..]);
      var n := FromLe(b[1..]);
      DigitSplit(b[0], n);
      assert b == [b[0]] + b[1..];
    }
  }

  lemma RecordBytesRoundTrip(b: seq<byte>)
    requires |b| == RECORD_SIZE
    ensures EncodeRecord(DecodeRecord(b)) == b
  {
    FromLeRoundTrip(b[..4]);
    FromLeRoundTrip(b[4..6]);
    assert b == b[..4] + b[4..6] + [b[6], b[7]];
  }

  /** Reading loses nothing: whole records, written again, give back the same bytes. */
  lemma {:induction false} RecordsReadBack(b: seq<byte>)
    requires |b| % 8 == 0
    ensures EncodeRecords(DecodeRecords(b)) == b
  {
    hide EncodeRecord, DecodeRecord, DecodeRecords, EncodeRecords;
    if b == [] {
      NoRecords();
    } else {
      var a, t := b[..|b| - 8], b[|b| - 8..];
      RecordsReadBack(a);
      DecodeRecordsExtend(a, t);
      EncodeRecordsExtend(DecodeRecords(a), DecodeRecord(t));
      RecordBytesRoundTrip(t);
      assert b == a + t;
    }
  }

  // ---- the bytes themselves ----

  /** Two and four bytes as numbers, low byte first. */
  function Half(a: int, b: int): int { a + 0x100 * b }
  function Word(a: int, b: int, c: int, d: int): int { a + 0x100 * b + 0x1_0000 * c + 0x100_0000 * d }

  lemma FromTwo(b: seq<byte>)
    requires |b| == 2
    ensures FromLe(b) == Half(b[0], b[1])
  {
    assert b[1..][1..] == [] && FromLe([]) == 0;
    assert FromLe(b[1..]) == b[1] as int + 256 * FromLe([]);
  }

  lemma FromFour(b: seq<byte>)
    requires |b| == 4
    ensures FromLe(b) == Word(b[0], b[1], b[2], b[3])
  {
    FromTwo(b[2..]);
    assert b[1..][1..] == b[2..];
  }

  lemma FromEight(b: seq<byte>)
    requires |b| == 8
    ensures FromLe(b) == FromLe(b[..4]) + 0x1_0000_0000 * FromLe(b[4..])
  {
    FromFour(b[..4]);
    var rest := FromLe(b[4..]);
    assert b[1..][1..] == b[2..] && b[2..][1..] == b[3..] && b[3..][1..] == b[4..];
    assert FromLe(b[3..]) == b[3] as int + 256 * rest;
    assert FromLe(b[2..]) == b[2] as int + 256 * FromLe(b[3..]);
    assert FromLe(b[1..]) == b[1] as int + 256 * FromLe(b[2..]);
  }

  /** A record's eight bytes: the delta in four and the system call in two, low byte first, then class and bucket. */
  lemma RecordLayout(r: PackedRecord)
    ensures var b := EncodeRecord(r);
            && |b| == 8
            && r.deltaUs == Word(b[0], b[1], b[2], b[3])
            && r.syscallId == Half(b[4], b[5])
            && r.argClass == b[6] && r.argBucket == b[7]
  {
    hide Le, FromLe, Pow256;
    Pow256Values();
    LeRoundTrip(r.deltaUs, 4);
    LeRoundTrip(r.syscallId, 2);
    FromFour(Le(r.deltaUs, 4));
    FromTwo(Le(r.syscallId, 2));
  }

  /** What survives of an id: all of it up to its first NUL, but at most 63 bytes. */
  lemma StoredIdIs(id: ContainerId)
    ensures var s := StoredId(id);
            s <= id && 0 !in s && |s| <= 63 && (|s| == 63 || s == id || id[|s|] == 0)
  {
    CStringHasNoNul(id);
    CStringIs(id);
  }

  lemma {:induction false} CStringIs(id: ContainerId)
    ensures CString(id) <= id && (CString(id) == id || id[|CString(id)|] == 0)
  {
    if id != [] && id[0] != 0 {
      CStringIs(id[1..]);
      assert id == [id[0]] + id[1..];
    }
  }

  /** A header's eighty bytes: version, vocabulary size, the stored id padded with NULs to 64, and the start. */
  lemma HeaderLayout(h: Header)
    ensures var b, s := EncodeHeader(h), StoredId(h.containerId);
            && |b| == 80
            && h.version == Word(b[0], b[1], b[2], b[3])
            && h.vocabSize == Word(b[4], b[5], b[6], b[7])
            && b[8..8 + |s|] == s && (forall i :: 8 + |s| <= i < 72 ==> b[i] == 0)
            && h.startNs == Word(b[72], b[73], b[74], b[75])
                            + 0x1_0000_0000 * Word(b[76], b[77], b[78], b[79])
  {
    hide Le, FromLe, Pow256, StoredId;
    var b := EncodeHeader(h);
    Pow256Values();
    LeRoundTrip(h.version, 4);
    LeRoundTrip(h.vocabSize, 4);
    LeRoundTrip(h.startNs, 8);
    FieldsOf(Le(h.version, 4), Le(h.vocabSize, 4), IdField(h.containerId), Le(h.startNs, 8));
    FromFour(b[..4]);
    FromFour(b[4..8]);
    FromEight(b[72..80]);
    FromFour(b[72..80][..4]);
    FromFour(b[72..80][4..]);
    PaddedId(b[8..72], StoredId(h.containerId));
  }

  lemma PaddedId(field: seq<byte>, s: ContainerId)
    requires |s| < 64 && field == s + Zeros(64 - |s|)
    ensures field[..|s|] == s && forall i :: |s| <= i < 64 ==> field[i] == 0
  {
  }
}
