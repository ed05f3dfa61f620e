/**
 The firmware's event log: a legacy header followed by TCG_PCR_EVENT2 records (TCG PC Client
 Platform Firmware Profile 1.05, section 10.2.2), and what the client makes of it.
 */
module EventLog {
  import opened Bytes
  import opened Seqs

  // ---- Event types ----------------------------------------------------------

  const EV_POST_CODE: U32 := 0x1
  const EV_NO_ACTION: U32 := 0x3
  const EV_SEPARATOR: U32 := 0x4
  const EV_S_CRTM_CONTENTS: U32 := 0x7
  const EV_S_CRTM_VERSION: U32 := 0x8
  const EV_CPU_MICROCODE: U32 := 0x9
  const EV_PLATFORM_CONFIG_FLAGS: U32 := 0xA
  const EV_COMPACT_HASH: U32 := 0xC
  const EV_EFI_VARIABLE_DRIVER_CONFIG: U32 := 0x8000_0001
  const EV_EFI_VARIABLE_BOOT: U32 := 0x8000_0002
  const EV_EFI_BOOT_SERVICES_APPLICATION: U32 := 0x8000_0003
  const EV_EFI_BOOT_SERVICES_DRIVER: U32 := 0x8000_0004
  const EV_EFI_RUNTIME_SERVICES_DRIVER: U32 := 0x8000_0005
  const EV_EFI_GPT_EVENT: U32 := 0x8000_0006
  const EV_EFI_ACTION: U32 := 0x8000_0007
  const EV_EFI_PLATFORM_FIRMWARE_BLOB: U32 := 0x8000_0008
  const EV_EFI_HANDOFF_TABLES: U32 := 0x8000_0009
  const EV_EFI_PLATFORM_FIRMWARE_BLOB2: U32 := 0x8000_000A
  const EV_EFI_HANDOFF_TABLES2: U32 := 0x8000_000B
  const EV_EFI_VARIABLE_BOOT2: U32 := 0x8000_000C
  const EV_EFI_VARIABLE_AUTHORITY: U32 := 0x8000_00E0

  // ---- The wire form --------------------------------------------------------

  datatype Digest = Digest(alg: U16, value: seq<Byte>)

  /** One record, with its digests in the order in which they are logged. */
  datatype Record = Record(pcr: U32, kind: U32, digests: seq<Digest>, data: seq<Byte>)

  /** SHA-1, SHA-256, SHA-384, SHA-512 and SM3. */
  function DigestSize(alg: nat): (size: Option<nat>) {
    if alg == 0x4 then Some(20)
    else if alg == 0xB then Some(32)
    else if alg == 0xC then Some(48)
    else if alg == 0xD then Some(64)
    else if alg == 0x12 then Some(32)
    else None
  }

  predicate KnownDigest(d: Digest) {
    DigestSize(d.alg) == Some(|d.value|)
  }

  const MAX_DIGESTS: nat := 8

  predicate Loggable(r: Record) {
    && |r.digests| <= 8 && (forall d :: d in r.digests ==> KnownDigest(d))
    && |r.data| < U32_LIMIT
  }

  function DigestBytes(digests: seq<Digest>): (b: seq<Byte>) {
    if digests == [] then [] else LE16(digests[0].alg) + digests[0].value + DigestBytes(digests[1..])
  }

  function RecordBytes(r: Record): (b: seq<Byte>)
    ensures |b| >= 16
  {
    LE32(r.pcr) + LE32(r.kind) + LE32(|r.digests|) + DigestBytes(r.digests) + (LE32(|r.data|) + r.data)
  }

  function Serialise(records: seq<Record>): (b: seq<Byte>) {
    if records == [] then [] else RecordBytes(records[0]) + Serialise(records[1..])
  }

  /** The legacy TCG_PCR_EVENT in front, which carries the Spec ID: a SHA-1 digest and its data. */
  function HeaderBytes(pcr: U32, sha1: seq<Byte>, data: seq<Byte>): (b: seq<Byte>)
    requires |sha1| == 20
    ensures |b| == 32 + |data|
  {
    LE32(pcr) + LE32(EV_NO_ACTION) + sha1 + LE32(|data|) + data
  }

  // ---- Reading --------------------------------------------------------------

  function TakeDigests(b: seq<Byte>, n: nat): (r: Option<(seq<Digest>, seq<Byte>)>) {
    if n == 0 then Some(([], b))
    else if |b| < 2 then None
    else
      var size := DigestSize(ReadLE16(b, 0));
      if size.None? || |b| < 2 + size.value then None
      else
        match TakeDigests(b[2 + size.value..], n - 1)
        case None => None
        case Some((more, rest)) => Some(([Digest(ReadLE16(b, 0), b[2..2 + size.value])] + more, rest))
  }

  lemma {:induction false} DigestsTaken(b: seq<Byte>, n: nat)
    requires TakeDigests(b, n).Some?
    ensures var (digests, rest) := TakeDigests(b, n).value;
            && |digests| == n && (forall d :: d in digests ==> KnownDigest(d))
            && b == DigestBytes(digests) + rest
  {
    if n > 0 {
      var size := DigestSize(ReadLE16(b, 0)).value;
      DigestsTaken(b[2 + size..], n - 1);
      var (more, rest) := TakeDigests(b[2 + size..], n - 1).value;
      OneDigestTaken(b, size, more, rest);
    }
  }

  lemma {:induction false} OneDigestTaken(b: seq<Byte>, size: nat, more: seq<Digest>, rest: seq<Byte>)
    requires 2 + size <= |b| && b[2 + size..] == DigestBytes(more) + rest
    ensures b == DigestBytes([Digest(ReadLE16(b, 0), b[2..2 + size])] + more) + rest
  {
    var d := Digest(ReadLE16(b, 0), b[2..2 + size]);
    LE16Again(b, 0);
    var first := LE16(d.alg) + d.value;
    assert b[..2 + size] == first;
    assert b == b[..2 + size] + b[2 + size..];
    assert ([d] + more)[1..] == more;
    Assoc(first, DigestBytes(more), rest);
  }

  /** The length-prefixed event data at the end of a record. */
  function TakeData(b: seq<Byte>): (r: Option<(seq<Byte>, seq<Byte>)>)
  {
    if |b| < 4 || |b| - 4 < ReadLE32(b, 0) then None
    else
      var size := ReadLE32(b, 0);
      Some((b[4..4 + size], b[4 + size..]))
  }

  lemma {:induction false} DataTaken(b: seq<Byte>)
    requires TakeData(b).Some?
    ensures var (data, rest) := TakeData(b).value;
            |data| < U32_LIMIT && b == LE32(|data|) + data + rest
  {
    LE32Again(b, 0);
  }

  function TakeRecord(b: seq<Byte>): (r: Option<(Record, seq<Byte>)>)
    ensures r.Some? ==> |r.value.1| < |b|
  {
    if |b| < 12 || ReadLE32(b, 8) > MAX_DIGESTS then None
    else
      match TakeDigests(b[12..], ReadLE32(b, 8))
      case None => None
      case Some((digests, rest)) =>
        DigestsTaken(b[12..], ReadLE32(b, 8));
        match TakeData(rest)
        case None => None
        case Some((data, rest')) => Some((Record(ReadLE32(b, 0), ReadLE32(b, 4), digests, data), rest'))
  }

  /** As many records as can be read; the first one that cannot be read ends the log. */
  function Records(b: seq<Byte>): (r: seq<Record>)
    decreases |b|
  {
    match TakeRecord(b)
    case None => []
    case Some((record, rest)) => [record] + Records(rest)
  }

  /** 32 + eventDataSize, in 32 bits */
  function HeaderSize(log: seq<Byte>): (n: nat)
    requires |log| >= 32
  {
    Cast32(32 + ReadLE32(log, 28))
  }

  /** Where the records start. A legacy header that does not fit in the log is not skipped. */
  function BodyStart(log: seq<Byte>): (n: nat)
    ensures n <= |log|
  {
    if |log| >= 32 && ReadLE32(log, 4) == EV_NO_ACTION && HeaderSize(log) <= |log| then HeaderSize(log) else 0
  }

  function Body(log: seq<Byte>): (b: seq<Byte>) {
    log[BodyStart(log)..]
  }

  // ---- Round trip -----------------------------------------------------------

  lemma {:induction false} DigestsBack(digests: seq<Digest>, rest: seq<Byte>)
    requires forall d :: d in digests ==> KnownDigest(d)
    ensures TakeDigests(DigestBytes(digests) + rest, |digests|) == Some((digests, rest))
  {
    var b := DigestBytes(digests) + rest;
    if digests == [] {
      assert b == rest;
    } else {
      var d, size := digests[0], |digests[0].value|;
      assert d in digests;
      var tail := DigestBytes(digests[1..]) + rest;
      assert b == LE16(d.alg) + d.value + tail;
      assert b[0..2] == LE16(d.alg) && b[2..2 + size] == d.value && b[2 + size..] == tail;
      LE16At(b, 0, d.alg);
      DigestsBack(digests[1..], rest);
      assert digests == [d] + digests[1..];
    }
  }

  lemma {:induction false} DataBack(data: seq<Byte>, rest: seq<Byte>)
    requires |data| < U32_LIMIT
    ensures TakeData(LE32(|data|) + data + rest) == Some((data, rest))
  {
    var b := LE32(|data|) + data + rest;
    assert b[0..4] == LE32(|data|);
    LE32At(b, 0, |data|);
    assert b[4..4 + |data|] == data && b[4 + |data|..] == rest;
  }

  lemma {:induction false} RecordBack(r: Record, rest: seq<Byte>)
    requires Loggable(r)
    ensures TakeRecord(RecordBytes(r) + rest) == Some((r, rest))
  {
    var b := RecordBytes(r) + rest;
    var tail := LE32(|r.data|) + r.data + rest;
    assert b == LE32(r.pcr) + LE32(r.kind) + LE32(|r.digests|) + (DigestBytes(r.digests) + tail);
    assert b[0..4] == LE32(r.pcr) && b[4..8] == LE32(r.kind) && b[8..12] == LE32(|r.digests|);
    LE32At(b, 0, r.pcr);
    LE32At(b, 4, r.kind);
    LE32At(b, 8, |r.digests|);
    assert b[12..] == DigestBytes(r.digests) + tail;
    DigestsBack(r.digests, tail);
    DataBack(r.data, rest);
  }

  lemma {:induction false} RecordsCons(b: seq<Byte>, r: Record, rest: seq<Byte>)
    requires TakeRecord(b) == Some((r, rest))
    ensures Records(b) == [r] + Records(rest)
  {
  }

  lemma {:induction false} RecordsBack(records: seq<Record>)
    requires forall r :: r in records ==> Loggable(r)
    ensures Records(Serialise(records)) == records
  {
    if records != [] {
      assert records[0] in records;
      RecordBack(records[0], Serialise(records[1..]));
      RecordsCons(Serialise(records), records[0], Serialise(records[1..]));
      RecordsBack(records[1..]);
      assert records == [records[0]] + records[1..];
    }
  }

  /** Behind a Spec ID header every list of records is read back completely and in order. */
  lemma {:induction false} RoundTrip(pcr: U32, sha1: seq<Byte>, data: seq<Byte>, records: seq<Record>)
    requires |sha1| == 20 && 32 + |data| < U32_LIMIT
    requires forall r :: r in records ==> Loggable(r)
    ensures var log := HeaderBytes(pcr, sha1, data) + Serialise(records);
            Body(log) == Serialise(records) && Records(Body(log)) == records
  {
    var log := HeaderBytes(pcr, sha1, data) + Serialise(records);
    assert log[4..8] == LE32(EV_NO_ACTION) && log[28..32] == LE32(|data|);
    LE32At(log, 4, EV_NO_ACTION);
    LE32At(log, 28, |data|);
    assert log[32 + |data|..] == Serialise(records);
    RecordsBack(records);
  }

  /** Without a header the records are read back unless the first one passes for a header. */
  lemma {:induction false} HeaderlessIff(records: seq<Record>)
    requires forall r :: r in records ==> Loggable(r)
    ensures var log := Serialise(records);
            Records(Body(log)) == records
            <==> !(|log| >= 32 && ReadLE32(log, 4) == EV_NO_ACTION && 0 < HeaderSize(log) <= |log|)
  {
    var log := Serialise(records);
    RecordsBack(records);
    if BodyStart(log) == 0 {
      assert log[0..] == log;
    } else if Records(Body(log)) == records {
      ParsedPrefix(Body(log));
    }
  }

  /** A log without a header whose only record passes for one: nothing is read. */
  lemma {:induction false} HeaderlessExample()
    ensures var r := Record(0, EV_NO_ACTION, [], [0, 0, 0, 0, 0, 0, 0, 0, 0, 0, 0, 0, 0, 0, 0, 0]);
            Loggable(r) && Records(Body(Serialise([r]))) == []
  {
    var data: seq<Byte> := [0, 0, 0, 0, 0, 0, 0, 0, 0, 0, 0, 0, 0, 0, 0, 0];
    var r := Record(0, EV_NO_ACTION, [], data);
    var log := Serialise([r]);
    assert Serialise([r][1..]) == [] && log == RecordBytes(r) + [];
    assert log == LE32(0) + LE32(EV_NO_ACTION) + LE32(0) + LE32(16) + data;
    assert log[4..8] == LE32(EV_NO_ACTION) && log[28..32] == LE32(0);
    LE32At(log, 4, EV_NO_ACTION);
    LE32At(log, 28, 0);
    assert Body(log) == [];
  }

  /** In particular, whatever list starts with another event type. */
  lemma {:induction false} HeaderlessRoundTrip(records: seq<Record>)
    requires forall r :: r in records ==> Loggable(r)
    requires records != [] ==> records[0].kind != EV_NO_ACTION
    ensures Records(Body(Serialise(records))) == records
  {
    if records != [] {
      assert records[0] in records;
      RecordBack(records[0], Serialise(records[1..]));
    }
    HeaderlessIff(records);
  }

  // ---- Faithful prefixes ----------------------------------------------------

  lemma {:induction false} RecordPrefix(b: seq<Byte>)
    requires TakeRecord(b).Some?
    ensures var (record, rest) := TakeRecord(b).value; b == RecordBytes(record) + rest && Loggable(record)
  {
    var (record, rest) := TakeRecord(b).value;
    var (digests, tail) := TakeDigests(b[12..], ReadLE32(b, 8)).value;
    DigestsTaken(b[12..], ReadLE32(b, 8));
    DataTaken(tail);
    LE32Again(b, 0);
    LE32Again(b, 4);
    LE32Again(b, 8);
    var head := LE32(record.pcr) + LE32(record.kind) + LE32(|record.digests|);
    assert b[..12] == b[0..4] + b[4..8] + b[8..12] == head;
    assert b == b[..12] + b[12..];
    var (list, last) := (DigestBytes(digests), LE32(|record.data|) + record.data);
    Assoc(list, last, rest);
    Assoc3(head, list, last, rest);
  }

  /** What was read is what the log says: the records serialise to a prefix of it. */
  lemma {:induction false} ParsedPrefix(b: seq<Byte>)
    ensures Serialise(Records(b)) <= b
    ensures 16 * |Records(b)| <= |Serialise(Records(b))|
    ensures forall r :: r in Records(b) ==> Loggable(r)
    decreases |b|
  {
    if TakeRecord(b).Some? {
      var (record, rest) := TakeRecord(b).value;
      RecordPrefix(b);
      ParsedPrefix(rest);
      assert Records(b)[1..] == Records(rest);
    }
  }

  /** More log behind it does not change a record that can be read. */
  lemma {:induction false} RecordExtends(b: seq<Byte>, c: seq<Byte>)
    requires TakeRecord(b).Some?
    ensures var (record, rest) := TakeRecord(b).value; TakeRecord(b + c) == Some((record, rest + c))
  {
    var (record, rest) := TakeRecord(b).value;
    RecordPrefix(b);
    assert b + c == RecordBytes(record) + (rest + c);
    RecordBack(record, rest + c);
  }

  lemma {:induction false} RecordsExtend(b: seq<Byte>, c: seq<Byte>)
    ensures Records(b) <= Records(b + c)
    decreases |b|
  {
    if TakeRecord(b).Some? {
      RecordExtends(b, c);
      var (record, rest) := TakeRecord(b).value;
      RecordsExtend(rest, c);
      assert Records(b) == [record] + Records(rest);
    }
  }

  /** The header of a log that is cut behind it is still there. */
  lemma {:induction false} CutStart(log: seq<Byte>, cut: seq<Byte>)
    requires cut <= log && BodyStart(log) <= |cut| && (BodyStart(log) > 0 ==> |cut| >= 32)
    ensures BodyStart(cut) == BodyStart(log)
  {
    assert forall i :: 0 <= i < |cut| ==> cut[i] == log[i];
    if |cut| >= 32 {
      assert ReadLE32(cut, 4) == ReadLE32(log, 4) && ReadLE32(cut, 28) == ReadLE32(log, 28);
    }
  }

  /** A log that is cut anywhere behind its header yields the first entries of the whole one. */
  lemma {:induction false} CutLog(log: seq<Byte>, n: nat)
    requires BodyStart(log) <= n <= |log| && (BodyStart(log) > 0 ==> n >= 32)
    ensures Records(Body(log[..n])) <= Records(Body(log))
  {
    var cut, start := log[..n], BodyStart(log);
    CutStart(log, cut);
    assert Body(log) == Body(cut) + log[n..];
    RecordsExtend(Body(cut), log[n..]);
  }

  /** Every entry takes at least sixteen bytes of log. */
  lemma {:induction false} EntryBound(log: seq<Byte>)
    ensures 16 * |Records(Body(log))| <= |log|
    ensures Serialise(Records(Body(log))) <= Body(log)
  {
    ParsedPrefix(Body(log));
  }
}
