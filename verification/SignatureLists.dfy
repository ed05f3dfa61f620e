/**
 EFI signature lists (UEFI Specification 2.10, section 32.4.1): their layout, and the parser that
 takes the X.509 certificates out of a Secure Boot variable.
 */
module SignatureLists {
  import opened Bytes
  import opened Seqs
  import EventLogAnalysis

  /** What the platform's certificate decoder reports; an empty subject means that it failed. */
  datatype CertInfo = CertInfo(
    subject: string, issuer: string, isMicrosoftCert: bool, isKnownOem: bool, oemName: string)

  type CertDecoder = seq<Byte> -> CertInfo

  /** One signature list: its type, its header, and entries of one size, each an owner's GUID
      followed by the signature data. */
  datatype SignatureList = SignatureList(kind: seq<Byte>, header: seq<Byte>, sigSize: U32, entries: seq<seq<Byte>>)

  const X509_GUID: seq<Byte> := [
    0xA1, 0x59, 0xC0, 0xA5, 0xE4, 0x94, 0xA7, 0x4A, 0x87, 0xB5, 0xAB, 0x15, 0x5C, 0x2B, 0xF0, 0x72
  ]

  const MAX_CERT: nat := 65536

  // ---- Layout ---------------------------------------------------------------

  function EntryBytes(entries: seq<seq<Byte>>): (b: seq<Byte>) {
    if entries == [] then [] else entries[0] + EntryBytes(entries[1..])
  }

  function ListSize(l: SignatureList): (n: nat) {
    28 + |l.header| + |EntryBytes(l.entries)|
  }

  function ListBytes(l: SignatureList): (b: seq<Byte>) {
    l.kind + LE32(ListSize(l)) + LE32(|l.header|) + LE32(l.sigSize) + (l.header + EntryBytes(l.entries))
  }

  function ListsBytes(lists: seq<SignatureList>): (b: seq<Byte>) {
    if lists == [] then [] else ListBytes(lists[0]) + ListsBytes(lists[1..])
  }

  predicate Uniform(entries: seq<seq<Byte>>, size: nat) {
    forall i :: 0 <= i < |entries| ==> |entries[i]| == size
  }

  predicate WellFormed(l: SignatureList) {
    |l.kind| == 16 && Uniform(l.entries, l.sigSize) && ListSize(l) + 28 < U32_LIMIT
  }

  // ---- What is to be found --------------------------------------------------

  function Decoded(data: seq<Byte>, decode: CertDecoder): (certs: seq<CertInfo>) {
    if |data| >= MAX_CERT || decode(data).subject == "" then [] else [decode(data)]
  }

  /** Of an entry: an owner of 16 bytes, then a certificate of fewer than 65536 bytes. */
  function EntryCerts(entry: seq<Byte>, decode: CertDecoder): (certs: seq<CertInfo>) {
    if 16 < |entry| < 16 + 65536 && decode(entry[16..]).subject != "" then [decode(entry[16..])] else []
  }

  function DecodedAll(entries: seq<seq<Byte>>, decode: CertDecoder): (certs: seq<CertInfo>)
  {
    if entries == [] then []
    else EntryCerts(entries[0], decode) + DecodedAll(entries[1..], decode)
  }

  /** The certificates of an X.509 list that can be decoded, in order. */
  function ListCerts(l: SignatureList, decode: CertDecoder): (certs: seq<CertInfo>)
  {
    if l.kind == X509_GUID && l.sigSize > 16 then DecodedAll(l.entries, decode) else []
  }

  function ListsCerts(lists: seq<SignatureList>, decode: CertDecoder): (certs: seq<CertInfo>)
  {
    if lists == [] then [] else ListCerts(lists[0], decode) + ListsCerts(lists[1..], decode)
  }

  // ---- Parsing --------------------------------------------------------------

  /** 28 + headerSize, in 32 bits */
  function FirstEntry(headerSize: U32): (n: nat) {
    Cast32(28 + (headerSize as nat))
  }

  /** The bound of the inner loop; its first half is computed in 32 bits. */
  predicate EntryFits(offset: nat, sigSize: nat, listSize: U32) {
    offset + sigSize <= Cast32((listSize as nat) + 28) && offset + sigSize <= listSize
  }

  /** The first half is redundant unless it wraps around. */
  lemma {:induction false} FirstBoundRedundant(offset: nat, sigSize: nat, listSize: U32)
    requires listSize + 28 < 0x1_0000_0000
    ensures EntryFits(offset, sigSize, listSize) <==> offset + sigSize <= listSize
  {
  }

  /** Reads `size` bytes from offset `from` on. */
  function Fetch(data: seq<Byte>, from: nat, size: nat): (r: Access<seq<Byte>>)
    decreases size, data
  {
    if size == 0 then Inside([])
    else
      match Fetch(data, from, size - 1)
      case Outside(at) => Outside(at)
      case Inside(front) =>
        if from + size <= |data| then Inside(front + [data[from + size - 1]]) else Outside(from + size - 1)
  }

  /** The reads stay inside exactly if the whole range does; otherwise the first one outside is at the
      end of the data, or where they start if that is behind it. */
  lemma {:induction false} FetchIs(data: seq<Byte>, from: nat, size: nat)
    requires size > 0
    ensures Fetch(data, from, size)
            == if from + size <= |data| then Inside(data[from..from + size]) else Outside(FirstOutside(data, from))
  {
    if size == 1 {
      assert Fetch(data, from, 0) == Inside([]);
      assert from < |data| ==> [] + [data[from]] == data[from..from + 1];
    } else {
      FetchIs(data, from, size - 1);
      if from + size <= |data| {
        Extend(data, from, from + size - 1);
      }
    }
  }

  function Fetch32(data: seq<Byte>, at: nat): (v: Access<U32>) {
    if at + 4 <= |data| then Inside(ReadLE32(data, at)) else Outside(FirstOutside(data, at))
  }

  /** One entry; nothing is read of a certificate of 65536 bytes or more. */
  function EntryIn(data: seq<Byte>, at: nat, sigSize: U32, decode: CertDecoder): (certs: Access<seq<CertInfo>>)
    requires sigSize > 16
  {
    if sigSize - 16 >= MAX_CERT then Inside([])
    else
      match Fetch(data, at + 16, sigSize - 16)
      case Outside(at) => Outside(at)
      case Inside(certData) => Inside(Decoded(certData, decode))
  }

  /** The entries of the list at `at`, from `offset` on. The source compares with the size that the
      list claims, not with what is left of the event. */
  function EntriesIn(data: seq<Byte>, at: nat, offset: nat, sigSize: U32, listSize: U32, decode: CertDecoder)
    : (certs: Access<seq<CertInfo>>)
    requires sigSize > 16
    decreases listSize - offset
  {
    if !EntryFits(offset, sigSize, listSize) then Inside([])
    else
      match EntryIn(data, at + offset, sigSize, decode)
      case Outside(at) => Outside(at)
      case Inside(found) => Prepend(found, EntriesIn(data, at, offset + sigSize, sigSize, listSize, decode))
  }

  /** The sizes in the header of a list: of the list, of what comes before its entries, of an entry. */
  datatype Sizes = Sizes(list: U32, header: U32, entry: U32)

  /** Addresses have 64 bits, so that one above the top wraps around into the data. */
  function SizesAt(data: seq<Byte>, at: nat): (sizes: Access<Sizes>) {
    var from := Cast64(at + 16);
    match (Fetch32(data, from), Fetch32(data, from + 4), Fetch32(data, from + 8))
    case (Inside(list), Inside(header), Inside(entry)) => Inside(Sizes(list, header, entry))
    case (Inside(_), Inside(_), Outside(missing)) => Outside(missing)
    case (Inside(_), Outside(missing), _) => Outside(missing)
    case (Outside(missing), _, _) => Outside(missing)
  }

  /** The certificates of the list at `at`. */
  function ListIn(data: seq<Byte>, at: nat, sizes: Sizes, decode: CertDecoder): (certs: Access<seq<CertInfo>>) {
    match Fetch(data, at, 16)
    case Outside(missing) => Outside(missing)
    case Inside(kind) =>
      if kind == X509_GUID && sizes.entry > 16
      then EntriesIn(data, at, FirstEntry(sizes.header), sizes.entry, sizes.list, decode)
      else Inside([])
  }

  /** One turn of the outer loop: it ends, takes a list off the front, or reads outside. */
  datatype Turn = Over | Found(certs: seq<CertInfo>, size: nat) | Beyond(at: nat)

  function TurnAt(data: seq<Byte>, at: nat, remaining: nat, decode: CertDecoder): (turn: Turn)
    ensures turn.Found? ==> 0 < turn.size <= remaining
  {
    if remaining < 28 then Over
    else
      match SizesAt(data, at)
      case Outside(missing) => Beyond(missing)
      case Inside(sizes) =>
        if sizes.list == 0 || sizes.list > remaining then Over
        else
          match ListIn(data, at, sizes, decode)
          case Outside(missing) => Beyond(missing)
          case Inside(found) => Found(found, sizes.list)
  }

  /** The certificates of the lists at `at`, as long as the source takes `remaining` bytes to be there. */
  function CertsIn(data: seq<Byte>, at: nat, remaining: nat, decode: CertDecoder): (certs: Access<seq<CertInfo>>)
    decreases remaining
  {
    match TurnAt(data, at, remaining, decode)
    case Over => Inside([])
    case Beyond(at) => Outside(at)
    case Found(found, size) => Prepend(found, CertsIn(data, at + size, remaining - size, decode))
  }

  /** The certificates of a variable event. The sum of offset and length is taken in 64 bits. */
  function VariableCerts(data: seq<Byte>, decode: CertDecoder): (certs: Access<seq<CertInfo>>) {
    if |data| < 32 then Inside([])
    else
      var (start, size) := (EventLogAnalysis.DataOffset(data), ReadLE64(data, 24));
      if Cast64(start + size) > |data| then Inside([]) else CertsIn(data, start, size, decode)
  }

  // ---- Where the lists are read ----------------------------------------------

  /** Walking from list to list inside the data, a list that claims to be empty is met. */
  predicate MeetsZero(data: seq<Byte>, at: nat)
    decreases |data| - at
  {
    && at + 28 <= |data|
    && var listSize: nat := ReadLE32(data, at + 16);
       listSize == 0 || MeetsZero(data, at + listSize)
  }

  /** A start just below the top of the address space: the sizes are read from the front of the data,
      and what they say is enough to stop. */
  predicate StopsAtTop(data: seq<Byte>, at: nat, remaining: nat)
    requires |data| >= 32
  {
    && U64_LIMIT - 16 <= at < U64_LIMIT
    && var listSize: nat := ReadLE32(data, at + 16 - U64_LIMIT);
       listSize == 0 || listSize > remaining
  }

  /** The events whose lists are read inside their data: those that fail the length test or whose sum
      does not wrap it around, and, of the others, those with too little to hold a list, with a zero
      list size to stop at, or with a start from which the addresses wrap around to a list size that
      ends the loop. */
  predicate ListsInside(data: seq<Byte>) {
    || |data| < 32
    || var (start, size) := (EventLogAnalysis.DataOffset(data), ReadLE64(data, 24));
       || start + size < U64_LIMIT || Cast64(start + size) > |data|
       || size < 28 || MeetsZero(data, start) || StopsAtTop(data, start, size)
  }

  lemma {:induction false} EntriesInside(data: seq<Byte>, at: nat, offset: nat, sigSize: U32, listSize: U32,
                                         decode: CertDecoder)
    requires sigSize > 16 && at + listSize <= |data|
    ensures EntriesIn(data, at, offset, sigSize, listSize, decode).Inside?
    decreases listSize - offset
  {
    if EntryFits(offset, sigSize, listSize) {
      FetchIs(data, at + offset + 16, sigSize - 16);
      EntriesInside(data, at, offset + sigSize, sigSize, listSize, decode);
    }
  }

  lemma {:induction false} SizesInside(data: seq<Byte>, at: nat)
    requires at + 28 <= |data| <= U64_LIMIT
    ensures SizesAt(data, at)
            == Inside(Sizes(ReadLE32(data, at + 16), ReadLE32(data, at + 20), ReadLE32(data, at + 24)))
  {
  }

  lemma {:induction false} SizesOutside(data: seq<Byte>, at: nat)
    requires |data| < at + 28 && at + 16 < U64_LIMIT
    ensures SizesAt(data, at).Outside?
  {
  }

  lemma {:induction false} ListInside(data: seq<Byte>, at: nat, sizes: Sizes, decode: CertDecoder)
    requires at + 28 <= |data| && at + sizes.list <= |data|
    ensures ListIn(data, at, sizes, decode).Inside?
  {
    FetchIs(data, at, 16);
    if sizes.entry > 16 {
      EntriesInside(data, at, FirstEntry(sizes.header), sizes.entry, sizes.list, decode);
    }
  }

  lemma {:induction false} CertsStep(data: seq<Byte>, at: nat, remaining: nat, decode: CertDecoder,
                                     found: seq<CertInfo>, size: nat)
    requires TurnAt(data, at, remaining, decode) == Found(found, size)
    ensures CertsIn(data, at, remaining, decode) == Prepend(found, CertsIn(data, at + size, remaining - size, decode))
  {
  }

  /** What a turn does at a list whose header lies inside the data. */
  lemma {:induction false} TurnInside(data: seq<Byte>, at: nat, remaining: nat, decode: CertDecoder, listSize: U32)
    requires at + 28 <= |data| <= U64_LIMIT && remaining >= 28 && listSize == ReadLE32(data, at + 16)
    ensures var turn := TurnAt(data, at, remaining, decode);
            && (turn.Over? <==> listSize == 0 || listSize > remaining)
            && (turn.Found? ==> turn.size == listSize)
            && (at + listSize <= |data| ==> !turn.Beyond?)
  {
    SizesInside(data, at);
    if at + listSize <= |data| {
      ListInside(data, at, SizesAt(data, at).value, decode);
    }
  }

  lemma {:induction false} StopsInside(data: seq<Byte>, at: nat, remaining: nat, decode: CertDecoder, listSize: U32)
    requires at + 28 <= |data| <= U64_LIMIT && remaining >= 28 && listSize == ReadLE32(data, at + 16)
    requires listSize == 0 || listSize > remaining
    ensures CertsIn(data, at, remaining, decode).Inside?
  {
    TurnInside(data, at, remaining, decode, listSize);
  }

  lemma {:induction false} GoesOnInside(data: seq<Byte>, at: nat, remaining: nat, decode: CertDecoder, listSize: U32)
    requires at + 28 <= |data| <= U64_LIMIT && 28 <= remaining && listSize == ReadLE32(data, at + 16)
    requires 0 < listSize <= remaining
    ensures CertsIn(data, at, remaining, decode).Inside?
            ==> CertsIn(data, at + listSize, remaining - listSize, decode).Inside?
    ensures at + listSize <= |data| && CertsIn(data, at + listSize, remaining - listSize, decode).Inside?
            ==> CertsIn(data, at, remaining, decode).Inside?
  {
    TurnInside(data, at, remaining, decode, listSize);
    var turn := TurnAt(data, at, remaining, decode);
    if turn.Found? {
      CertsStep(data, at, remaining, decode, turn.certs, turn.size);
    }
  }

  lemma {:induction false} UnwrappedLists(data: seq<Byte>, at: nat, remaining: nat, decode: CertDecoder)
    requires at + remaining <= |data| <= U64_LIMIT
    ensures CertsIn(data, at, remaining, decode).Inside?
    decreases remaining
  {
    if remaining >= 28 {
      var listSize := ReadLE32(data, at + 16);
      if 0 < listSize <= remaining {
        UnwrappedLists(data, at + listSize, remaining - listSize, decode);
        GoesOnInside(data, at, remaining, decode, listSize);
      } else {
        StopsInside(data, at, remaining, decode, listSize);
      }
    }
  }

  lemma {:induction false} StartsOutside(data: seq<Byte>, at: nat, remaining: nat, decode: CertDecoder)
    requires |data| < at + 28 && at + 16 < U64_LIMIT && remaining >= 28
    ensures CertsIn(data, at, remaining, decode).Outside? && !MeetsZero(data, at)
  {
    SizesOutside(data, at);
  }

  /** What holds behind a list holds at the list. */
  lemma {:induction false} WrappedStep(data: seq<Byte>, at: nat, remaining: nat, decode: CertDecoder, listSize: U32)
    requires at + 28 <= |data| <= U64_LIMIT && 28 <= remaining && listSize == ReadLE32(data, at + 16)
    requires 0 < listSize <= remaining
    requires CertsIn(data, at + listSize, remaining - listSize, decode).Inside? <==> MeetsZero(data, at + listSize)
    ensures CertsIn(data, at, remaining, decode).Inside? <==> MeetsZero(data, at)
  {
    ZeroStep(data, at, listSize);
    BehindIsOutside(data, at + listSize);
    GoesOnInside(data, at, remaining, decode, listSize);
  }

  /** So much is taken to remain that the walk cannot end inside the data but at a size of zero. */
  predicate Far(data: seq<Byte>, at: nat, remaining: nat) {
    |data| < 0x8000_0000_0000_0000 && at <= |data| + U32_LIMIT <= at + remaining - 28
  }

  lemma {:induction false} FarNext(data: seq<Byte>, at: nat, remaining: nat, listSize: U32)
    requires Far(data, at, remaining)
    ensures 28 <= remaining && at + 16 < U64_LIMIT && |data| <= U64_LIMIT
    ensures at <= |data| ==> listSize <= remaining && Far(data, at + listSize, remaining - listSize)
  {
  }

  lemma {:induction false} WrappedLists(data: seq<Byte>, at: nat, remaining: nat, decode: CertDecoder)
    requires Far(data, at, remaining)
    ensures CertsIn(data, at, remaining, decode).Inside? <==> MeetsZero(data, at)
    decreases remaining
  {
    if at + 28 <= |data| {
      var listSize := ReadLE32(data, at + 16);
      FarNext(data, at, remaining, listSize);
      if listSize > 0 {
        WrappedLists(data, at + listSize, remaining - listSize, decode);
        WrappedStep(data, at, remaining, decode, listSize);
      } else {
        StopsInside(data, at, remaining, decode, listSize);
        ZeroMet(data, at);
      }
    } else {
      FarNext(data, at, remaining, 0);
      StartsOutside(data, at, remaining, decode);
    }
  }

  lemma {:induction false} ZeroMet(data: seq<Byte>, at: nat)
    requires at + 28 <= |data| && ReadLE32(data, at + 16) == 0
    ensures MeetsZero(data, at)
  {
  }

  lemma {:induction false} ZeroStep(data: seq<Byte>, at: nat, listSize: U32)
    requires at + 28 <= |data| && listSize == ReadLE32(data, at + 16) > 0
    ensures MeetsZero(data, at) <==> MeetsZero(data, at + listSize)
  {
  }

  lemma {:induction false} BehindIsOutside(data: seq<Byte>, at: nat)
    ensures at > |data| ==> !MeetsZero(data, at)
  {
  }

  lemma {:induction false} SizesAtTop(data: seq<Byte>, at: nat, from: nat)
    requires |data| >= 32 && from < 16 && at + 16 == U64_LIMIT + from
    ensures SizesAt(data, at) == Inside(Sizes(ReadLE32(data, from), ReadLE32(data, from + 4), ReadLE32(data, from + 8)))
  {
    assert Cast64(at + 16) == from;
  }

  lemma {:induction false} TypeOutside(data: seq<Byte>, at: nat, sizes: Sizes, decode: CertDecoder)
    requires at >= |data|
    ensures ListIn(data, at, sizes, decode) == Outside(at)
  {
    FetchIs(data, at, 16);
  }

  /** From the top of the address space the type of a list is out of reach, and its sizes are not. */
  lemma {:induction false} ListsAtTop(data: seq<Byte>, at: nat, remaining: nat, decode: CertDecoder)
    requires 32 <= |data| < 0x8000_0000_0000_0000 && U64_LIMIT - 16 <= at < U64_LIMIT && remaining >= 28
    ensures CertsIn(data, at, remaining, decode) == if StopsAtTop(data, at, remaining) then Inside([]) else Outside(at)
  {
    SizesAtTop(data, at, at + 16 - U64_LIMIT);
    TypeOutside(data, at, SizesAt(data, at).value, decode);
  }

  /** Exactly these events are read inside their data. A std::vector is never longer than 2^63 - 1. */
  lemma {:induction false} ListsInsideIff(data: seq<Byte>, decode: CertDecoder)
    requires |data| < 0x8000_0000_0000_0000
    ensures VariableCerts(data, decode).Inside? <==> ListsInside(data)
  {
    if |data| >= 32 {
      var (start, size) := (EventLogAnalysis.DataOffset(data), ReadLE64(data, 24));
      if start + size < U64_LIMIT {
        if start + size <= |data| {
          UnwrappedLists(data, start, size, decode);
        }
      } else if Cast64(start + size) <= |data| && size >= 28 {
        if start <= |data| {
          WrappedLists(data, start, size, decode);
        } else if start + 16 < U64_LIMIT {
          StartsOutside(data, start, size, decode);
        } else {
          ListsAtTop(data, start, size, decode);
        }
      }
    }
  }

  /** A 32-byte event that passes the length test, and whose lists are read behind its end. */
  lemma {:induction false} ListsReadOutside(guid: seq<Byte>, decode: CertDecoder)
    requires |guid| == 16
    ensures var data := guid + LE64(0) + LE64(0xFFFF_FFFF_FFFF_FFE0);
            |data| == 32 && EventLogAnalysis.NameInside(data) && VariableCerts(data, decode) == Outside(48)
  {
    var data := guid + LE64(0) + LE64(0xFFFF_FFFF_FFFF_FFE0);
    assert data == data + [];
    EventLogAnalysis.HeadFields(data, guid, 0, 0xFFFF_FFFF_FFFF_FFE0, []);
  }

  lemma {:induction false} CertsAtTop(data: seq<Byte>, decode: CertDecoder)
    requires |data| == 32 && EventLogAnalysis.DataOffset(data) == U64_LIMIT - 16 && ReadLE64(data, 24) == 28
    ensures VariableCerts(data, decode)
            == if ReadLE32(data, 0) == 0 || ReadLE32(data, 0) > 28 then Inside([]) else Outside(U64_LIMIT - 16)
  {
    ListsAtTop(data, U64_LIMIT - 16, 28, decode);
  }

  /** An event that starts 16 bytes below the top: the GUID at its front is taken for the list size. */
  lemma {:induction false} ListsReadAtTop(guid: seq<Byte>, decode: CertDecoder)
    requires |guid| == 16
    ensures var data := guid + LE64(0x7FFF_FFFF_FFFF_FFE8) + LE64(28);
            VariableCerts(data, decode)
            == if ReadLE32(guid, 0) == 0 || ReadLE32(guid, 0) > 28 then Inside([]) else Outside(U64_LIMIT - 16)
  {
    var data := guid + LE64(0x7FFF_FFFF_FFFF_FFE8) + LE64(28);
    TopFields(data, guid);
    CertsAtTop(data, decode);
  }

  lemma {:induction false} TopFields(data: seq<Byte>, guid: seq<Byte>)
    requires |guid| == 16 && data == guid + LE64(0x7FFF_FFFF_FFFF_FFE8) + LE64(28)
    ensures |data| == 32 && EventLogAnalysis.DataOffset(data) == U64_LIMIT - 16 && ReadLE64(data, 24) == 28
    ensures ReadLE32(data, 0) == ReadLE32(guid, 0)
  {
    assert data == data + [];
    EventLogAnalysis.HeadFields(data, guid, 0x7FFF_FFFF_FFFF_FFE8, 28, []);
    assert forall k :: 0 <= k < 4 ==> data[k] == guid[k];
  }

  // ---- The source's loops ---------------------------------------------------

  method DecodeEntry(certData: seq<Byte>, decode: CertDecoder) returns (found: seq<CertInfo>)
    ensures found == Decoded(certData, decode)
  {
    found := [];
    if |certData| < MAX_CERT {
      var certInfo := decode(certData);
      if certInfo.subject != "" {
        found := [certInfo];
      }
    }
  }

  method ReadEntry(data: seq<Byte>, sigEntry: nat, sigSize: U32, decode: CertDecoder)
    returns (found: Access<seq<CertInfo>>)
    requires sigSize > 16
    ensures found == EntryIn(data, sigEntry, sigSize, decode)
  {
    var certLen := sigSize - 16;
    if certLen > 0 && certLen < MAX_CERT {
      FetchIs(data, sigEntry + 16, certLen);
      var certData := Fetch(data, sigEntry + 16, certLen);
      if certData.Outside? {
        return Outside(certData.at);
      }
      var certs := DecodeEntry(certData.value, decode);
      return Inside(certs);
    }
    found := Inside([]);
  }

  lemma {:induction false} EntriesStep(data: seq<Byte>, at: nat, offset: nat, found: seq<CertInfo>, sigSize: U32,
                                       listSize: U32, decode: CertDecoder)
    requires sigSize > 16 && EntryFits(offset, sigSize, listSize)
    requires EntryIn(data, at + offset, sigSize, decode) == Inside(found)
    ensures EntriesIn(data, at, offset, sigSize, listSize, decode)
            == Prepend(found, EntriesIn(data, at, offset + sigSize, sigSize, listSize, decode))
  {
  }

  /** The inner loop: the entries of one list. */
  method ParseList(data: seq<Byte>, sigListData: nat, headerSize: U32, sigSize: U32, listSize: U32, decode: CertDecoder)
    returns (r: Access<seq<CertInfo>>)
    requires sigSize > 16
    ensures r == EntriesIn(data, sigListData, FirstEntry(headerSize), sigSize, listSize, decode)
  {
    var certs: seq<CertInfo> := [];
    var offset: nat := Cast32(28 + (headerSize as nat));
    ghost var all := EntriesIn(data, sigListData, offset, sigSize, listSize, decode);
    PrependNothing(all);
    while offset + sigSize <= Cast32((listSize as nat) + 28) && offset + sigSize <= listSize
      invariant Prepend(certs, EntriesIn(data, sigListData, offset, sigSize, listSize, decode)) == all
      decreases listSize - offset
    {
      var found := ReadEntry(data, sigListData + offset, sigSize, decode);
      if found.Outside? {
        return Outside(found.at);
      }
      EntriesStep(data, sigListData, offset, found.value, sigSize, listSize, decode);
      PrependTwice(certs, found.value, EntriesIn(data, sigListData, offset + sigSize, sigSize, listSize, decode));
      certs := certs + found.value;
      offset := offset + sigSize;
    }
    assert certs + [] == certs;
    r := Inside(certs);
  }

  method ParseFront(data: seq<Byte>, at: nat, remaining: nat, decode: CertDecoder) returns (turn: Turn)
    requires remaining >= 28
    ensures turn == TurnAt(data, at, remaining, decode)
  {
    var head := Cast64(at + 16);
    var listSize := Fetch32(data, head);
    if listSize.Outside? {
      return Beyond(listSize.at);
    }
    var headerSize := Fetch32(data, head + 4);
    if headerSize.Outside? {
      return Beyond(headerSize.at);
    }
    var sigSize := Fetch32(data, head + 8);
    if sigSize.Outside? {
      return Beyond(sigSize.at);
    }
    if listSize.value == 0 || listSize.value > remaining {
      return Over;
    }
    var sigType := Fetch(data, at, 16);
    if sigType.Outside? {
      return Beyond(sigType.at);
    }
    var found: Access<seq<CertInfo>> := Inside([]);
    if sigType.value == X509_GUID && sigSize.value > 16 {
      found := ParseList(data, at, headerSize.value, sigSize.value, listSize.value, decode);
    }
    turn := if found.Inside? then Found(found.value, listSize.value) else Beyond(found.at);
  }

  lemma {:induction false} PrependFound(certs: seq<CertInfo>, found: seq<CertInfo>, here: Access<seq<CertInfo>>,
                                        more: Access<seq<CertInfo>>, all: Access<seq<CertInfo>>)
    requires here == Prepend(found, more) && Prepend(certs, here) == all
    ensures Prepend(certs + found, more) == all
  {
    PrependTwice(certs, found, more);
  }

  lemma {:induction false} CertsEnd(data: seq<Byte>, at: nat, remaining: nat, decode: CertDecoder, turn: Turn)
    requires turn == TurnAt(data, at, remaining, decode)
    ensures turn.Over? ==> CertsIn(data, at, remaining, decode) == Inside([])
    ensures turn.Beyond? ==> CertsIn(data, at, remaining, decode) == Outside(turn.at)
  {
  }

  /** A turn of the outer loop, when `certs` has been found and `all` is what the whole loop yields: the
      loop goes on behind the list, */
  lemma {:induction false} AfterList(data: seq<Byte>, at: nat, remaining: nat, decode: CertDecoder,
                                     found: seq<CertInfo>, size: nat, certs: seq<CertInfo>, all: Access<seq<CertInfo>>)
    requires TurnAt(data, at, remaining, decode) == Found(found, size)
    requires Prepend(certs, CertsIn(data, at, remaining, decode)) == all
    ensures Prepend(certs + found, CertsIn(data, at + size, remaining - size, decode)) == all
  {
    CertsStep(data, at, remaining, decode, found, size);
    PrependFound(certs, found, CertsIn(data, at, remaining, decode),
                 CertsIn(data, at + size, remaining - size, decode), all);
  }

  /** or it ends. */
  lemma {:induction false} AfterLast(data: seq<Byte>, at: nat, remaining: nat, decode: CertDecoder, turn: Turn,
                                     certs: seq<CertInfo>, all: Access<seq<CertInfo>>)
    requires turn == TurnAt(data, at, remaining, decode)
    requires Prepend(certs, CertsIn(data, at, remaining, decode)) == all
    ensures turn.Over? ==> all == Inside(certs)
    ensures turn.Beyond? ==> all == Outside(turn.at)
  {
    CertsEnd(data, at, remaining, decode, turn);
    assert certs + [] == certs;
  }

  /** The outer loop, over the lists. */
  method ParseLists(data: seq<Byte>, dataOffset: nat, dataLen: nat, decode: CertDecoder)
    returns (r: Access<seq<CertInfo>>)
    ensures r == CertsIn(data, dataOffset, dataLen, decode)
  {
    var certs: seq<CertInfo> := [];
    var sigListData: nat, sigListRemaining: nat := dataOffset, dataLen;
    ghost var all := CertsIn(data, dataOffset, dataLen, decode);
    PrependNothing(all);
    while sigListRemaining >= 28
      invariant Prepend(certs, CertsIn(data, sigListData, sigListRemaining, decode)) == all
      decreases sigListRemaining
    {
      var turn := ParseFront(data, sigListData, sigListRemaining, decode);
      AfterLast(data, sigListData, sigListRemaining, decode, turn, certs, all);
      match turn {
        case Over => return Inside(certs);
        case Beyond(at) => return Outside(at);
        case Found(found, size) =>
          AfterList(data, sigListData, sigListRemaining, decode, found, size, certs, all);
          certs := certs + found;
          sigListData, sigListRemaining := sigListData + size, sigListRemaining - size;
      }
    }
    NoListLeft(data, sigListData, sigListRemaining, decode, certs, all);
    r := Inside(certs);
  }

  lemma {:induction false} NoListLeft(data: seq<Byte>, at: nat, remaining: nat, decode: CertDecoder,
                                      certs: seq<CertInfo>, all: Access<seq<CertInfo>>)
    requires remaining < 28 && Prepend(certs, CertsIn(data, at, remaining, decode)) == all
    ensures all == Inside(certs)
  {
    AfterLast(data, at, remaining, decode, Over, certs, all);
  }

  method ParseEfiSignatureList(variableData: seq<Byte>, decode: CertDecoder) returns (certs: Access<seq<CertInfo>>)
    ensures certs == VariableCerts(variableData, decode)
  {
    if |variableData| < 32 {
      return Inside([]);
    }
    var dataOffset := EventLogAnalysis.DataOffset(variableData);
    var dataLen := ReadLE64(variableData, 24);
    if Cast64(dataOffset + dataLen) > |variableData| {
      return Inside([]);
    }
    certs := ParseLists(variableData, dataOffset, dataLen, decode);
  }

  // ---- Round trip -----------------------------------------------------------

  /** `part` is read at offset `at`. */
  predicate Lies(data: seq<Byte>, at: nat, part: seq<Byte>) {
    at + |part| <= |data| && Fetch(data, at, |part|) == Inside(part)
  }

  lemma {:induction false} LiesSlice(data: seq<Byte>, at: nat, part: seq<Byte>)
    ensures Lies(data, at, part) <==> at + |part| <= |data| && data[at..at + |part|] == part
  {
    if part != [] {
      FetchIs(data, at, |part|);
    }
  }

  lemma {:induction false} LiesBoth(data: seq<Byte>, at: nat, a: seq<Byte>, b: seq<Byte>)
    requires Lies(data, at, a + b)
    ensures Lies(data, at, a) && Lies(data, at + |a|, b)
  {
    LiesSlice(data, at, a + b);
    LiesSlice(data, at, a);
    LiesSlice(data, at + |a|, b);
    var whole := data[at..at + |a + b|];
    assert whole[..|a|] == a && whole[|a|..] == b;
  }

  lemma {:induction false} NumberLies(data: seq<Byte>, at: nat, v: U32)
    requires Lies(data, at, LE32(v))
    ensures ReadLE32(data, at) == v
  {
    LiesSlice(data, at, LE32(v));
    LE32At(data, at, v);
  }

  lemma {:induction false} EntriesBack(data: seq<Byte>, at: nat, offset: nat, entries: seq<seq<Byte>>,
                                       sigSize: U32, listSize: U32, decode: CertDecoder)
    requires sigSize > 16 && listSize + 28 < 0x1_0000_0000
    requires Lies(data, at + offset, EntryBytes(entries)) && listSize == offset + |EntryBytes(entries)|
    requires Uniform(entries, sigSize)
    ensures EntriesIn(data, at, offset, sigSize, listSize, decode) == Inside(DecodedAll(entries, decode))
    decreases |entries|
  {
    if entries == [] {
      assert !EntryFits(offset, sigSize, listSize);
    } else {
      var e := entries[0];
      LiesBoth(data, at + offset, e, EntryBytes(entries[1..]));
      EntriesBack(data, at, offset + sigSize, entries[1..], sigSize, listSize, decode);
      EntryBack(data, at + offset, e, decode);
      EntriesStep(data, at, offset, Decoded(e[16..], decode), sigSize, listSize, decode);
    }
  }

  lemma {:induction false} EntryBack(data: seq<Byte>, at: nat, e: seq<Byte>, decode: CertDecoder)
    requires 16 < |e| < U32_LIMIT && Lies(data, at, e)
    ensures EntryIn(data, at, |e|, decode) == Inside(Decoded(e[16..], decode))
  {
    assert e == e[..16] + e[16..];
    LiesBoth(data, at, e[..16], e[16..]);
  }

  lemma {:induction false} HeadBack(data: seq<Byte>, at: nat, l: SignatureList)
    requires WellFormed(l) && Lies(data, at, ListBytes(l))
    ensures |ListBytes(l)| == ListSize(l) && at + 28 <= |data|
    ensures Fetch(data, at, 16) == Inside(l.kind) && ReadLE32(data, at + 16) == ListSize(l)
    ensures ReadLE32(data, at + 20) == |l.header| && ReadLE32(data, at + 24) == l.sigSize
    ensures Lies(data, at + 28 + |l.header|, EntryBytes(l.entries))
  {
    var rest := l.header + EntryBytes(l.entries);
    LiesBoth(data, at, l.kind + LE32(ListSize(l)) + LE32(|l.header|) + LE32(l.sigSize), rest);
    LiesBoth(data, at + 28, l.header, EntryBytes(l.entries));
    LiesBoth(data, at, l.kind + LE32(ListSize(l)) + LE32(|l.header|), LE32(l.sigSize));
    LiesBoth(data, at, l.kind + LE32(ListSize(l)), LE32(|l.header|));
    LiesBoth(data, at, l.kind, LE32(ListSize(l)));
    NumberLies(data, at + 16, ListSize(l));
    NumberLies(data, at + 20, |l.header|);
    NumberLies(data, at + 24, l.sigSize);
  }

  lemma {:induction false} ListBack(data: seq<Byte>, at: nat, l: SignatureList, remaining: nat, decode: CertDecoder)
    requires WellFormed(l) && Lies(data, at, ListBytes(l)) && ListSize(l) <= remaining && |data| <= U64_LIMIT
    ensures TurnAt(data, at, remaining, decode) == Found(ListCerts(l, decode), ListSize(l))
  {
    HeadBack(data, at, l);
    SizesInside(data, at);
    if l.kind == X509_GUID && l.sigSize > 16 {
      EntriesBack(data, at, 28 + |l.header|, l.entries, l.sigSize, ListSize(l), decode);
    }
  }

  lemma {:induction false} FrontBack(data: seq<Byte>, at: nat, lists: seq<SignatureList>, more: seq<Byte>)
    requires lists != [] && WellFormed(lists[0]) && more == ListsBytes(lists[1..]) && Lies(data, at, ListsBytes(lists))
    ensures Lies(data, at, ListBytes(lists[0])) && |ListBytes(lists[0])| == ListSize(lists[0])
    ensures |ListsBytes(lists)| == ListSize(lists[0]) + |more| && Lies(data, at + ListSize(lists[0]), more)
  {
    LiesBoth(data, at, ListBytes(lists[0]), more);
    HeadBack(data, at, lists[0]);
  }

  lemma {:induction false} NextListBack(data: seq<Byte>, at: nat, remaining: nat, l: SignatureList, left: nat,
                                        more: seq<CertInfo>, decode: CertDecoder)
    requires remaining == ListSize(l) + left
    requires TurnAt(data, at, remaining, decode) == Found(ListCerts(l, decode), ListSize(l))
    requires CertsIn(data, at + ListSize(l), left, decode) == Inside(more)
    ensures CertsIn(data, at, remaining, decode) == Inside(ListCerts(l, decode) + more)
  {
  }

  predicate AllWellFormed(lists: seq<SignatureList>) {
    forall l :: l in lists ==> WellFormed(l)
  }

  lemma {:induction false} WellFormedParts(lists: seq<SignatureList>)
    requires lists != [] && AllWellFormed(lists)
    ensures WellFormed(lists[0]) && AllWellFormed(lists[1..])
  {
  }

  /** The lists lie one behind the other, from offset `at` on. */
  predicate InPlace(data: seq<Byte>, at: nat, lists: seq<SignatureList>)
    decreases |lists|
  {
    lists == [] || (Lies(data, at, ListBytes(lists[0])) && InPlace(data, at + ListSize(lists[0]), lists[1..]))
  }

  function TotalSize(lists: seq<SignatureList>): (n: nat)
    decreases |lists|
  {
    if lists == [] then 0 else ListSize(lists[0]) + TotalSize(lists[1..])
  }

  lemma {:induction false} AllInPlace(data: seq<Byte>, at: nat, lists: seq<SignatureList>)
    requires Lies(data, at, ListsBytes(lists)) && AllWellFormed(lists)
    ensures InPlace(data, at, lists) && |ListsBytes(lists)| == TotalSize(lists)
    decreases |lists|
  {
    if lists != [] {
      WellFormedParts(lists);
      FrontBack(data, at, lists, ListsBytes(lists[1..]));
      AllInPlace(data, at + ListSize(lists[0]), lists[1..]);
    }
  }

  lemma {:induction false} CertsBack(data: seq<Byte>, at: nat, lists: seq<SignatureList>, decode: CertDecoder)
    requires InPlace(data, at, lists) && AllWellFormed(lists) && |data| <= U64_LIMIT
    ensures CertsIn(data, at, TotalSize(lists), decode) == Inside(ListsCerts(lists, decode))
    decreases |lists|
  {
    if lists != [] {
      var (first, rest) := (lists[0], lists[1..]);
      WellFormedParts(lists);
      CertsBack(data, at + ListSize(first), rest, decode);
      ListBack(data, at, first, TotalSize(lists), decode);
      NextListBack(data, at, TotalSize(lists), first, TotalSize(rest), ListsCerts(rest, decode), decode);
    }
  }

  /** Parsing any sequence of signature lists, wherever it lies, yields exactly the decodable
      certificates of its X.509 lists, in order. */
  lemma {:induction false} RoundTrip(data: seq<Byte>, at: nat, lists: seq<SignatureList>, decode: CertDecoder)
    requires Lies(data, at, ListsBytes(lists)) && |data| <= U64_LIMIT && AllWellFormed(lists)
    ensures CertsIn(data, at, |ListsBytes(lists)|, decode) == Inside(ListsCerts(lists, decode))
  {
    AllInPlace(data, at, lists);
    CertsBack(data, at, lists, decode);
  }

  /** The same for the event of a whole variable. */
  lemma {:induction false} VariableRoundTrip(guid: seq<Byte>, name: seq<U16>, lists: seq<SignatureList>,
                                             decode: CertDecoder)
    requires |guid| == 16 && |name| < 0x1000_0000 && |ListsBytes(lists)| < U32_LIMIT
    requires AllWellFormed(lists)
    ensures VariableCerts(EventLogAnalysis.VariableBytes(guid, name, ListsBytes(lists)), decode)
            == Inside(ListsCerts(lists, decode))
  {
    EventLogAnalysis.VariableFields(guid, name, ListsBytes(lists));
    LiesSlice(EventLogAnalysis.VariableBytes(guid, name, ListsBytes(lists)), 32 + 2 * |name|, ListsBytes(lists));
    RoundTrip(EventLogAnalysis.VariableBytes(guid, name, ListsBytes(lists)), 32 + 2 * |name|, lists, decode);
  }
}
