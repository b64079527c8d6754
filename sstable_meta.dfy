// The SSTable footer ("meta block") of the Hummock storage engine: block
// metadata, monotonic delete events and the whole footer with its checksum,
// format version and magic number, encoded to bytes and decoded back.

module SstableFormat {
  import opened Bytes

  const DEFAULT_META_BUFFER_CAPACITY: nat := 4096
  const MAGIC: u32 := 0x5785ab73
  const VERSION: u32 := 1

  /** A table id and a table key; ordered by table id, then bytes. */
  datatype UserKey = UserKey(tableId: u32, tableKey: bytes)
  /** The left end of a delete range: a user key, possibly excluded. */
  datatype PointRange = PointRange(leftUserKey: UserKey, isExcludeLeftKey: bool)
  /** From `eventKey` on, point keys are deleted below `newEpoch` (`U64_MAX`: nothing). */
  datatype MonotonicDeleteEvent = MonotonicDeleteEvent(eventKey: PointRange, newEpoch: u64)
  datatype BlockMeta = BlockMeta(smallestKey: bytes, offset: u32, len: u32, uncompressedSize: u32)
  datatype SstableMeta = SstableMeta(
    blockMetas: seq<BlockMeta>,
    bloomFilter: bytes,
    estimatedSize: u32,
    keyCount: u32,
    smallestKey: bytes,
    largestKey: bytes,
    metaOffset: u64,
    monotonicTombstoneEvents: seq<MonotonicDeleteEvent>,
    version: u32)
  datatype Sstable = Sstable(id: u64, meta: SstableMeta)
  datatype BlockLocation = BlockLocation(offset: nat, size: nat)

  /** Decoding errors; `Malformed` stands for the panics of a truncated buffer or a bad flag byte. */
  datatype Error =
    | MagicMismatch(expected: u32, found: u32)
    | InvalidFormatVersion(found: u32)
    | ChecksumMismatch(stored: u64, computed: u64)
    | Malformed
  datatype Result<T> = Ok(value: T) | Err(error: Error)

  // ---------------------------------------------------------------------
  // Fixed-width fields

  lemma Pow256Facts()
    ensures Pow256(1) == 0x100 && Pow256(4) == 0x1_0000_0000
    ensures Pow256(8) == 0x1_0000_0000_0000_0000
  {
    assert Pow256(2) == 0x1_0000;
    assert Pow256(3) == 0x100_0000;
    assert Pow256(4) == 0x1_0000_0000;
    assert Pow256(5) == 0x100_0000_0000;
    assert Pow256(6) == 0x1_0000_0000_0000;
    assert Pow256(7) == 0x100_0000_0000_0000;
  }

  function GetU8(s: bytes): Option<(u8, bytes)> {
    if |s| < 1 then None else Some((s[0], s[1..]))
  }

  function GetU32LE(s: bytes): Option<(u32, bytes)> {
    if |s| < 4 then None else Pow256Facts(); Some((FromLE(s[..4]), s[4..]))
  }

  function GetU32BE(s: bytes): Option<(u32, bytes)> {
    if |s| < 4 then None else Pow256Facts(); Some((FromBE(s[..4]), s[4..]))
  }

  function GetU64LE(s: bytes): Option<(u64, bytes)> {
    if |s| < 8 then None else Pow256Facts(); Some((FromLE(s[..8]), s[8..]))
  }

  lemma GetU32LEOfLE(x: u32, rest: bytes)
    ensures GetU32LE(LE(x, 4) + rest) == Some((x, rest))
  {
    Pow256Facts();
    LEPrefix(x, 4, rest);
  }

  lemma GetU32BEOfBE(x: u32, rest: bytes)
    ensures GetU32BE(BE(x, 4) + rest) == Some((x, rest))
  {
    Pow256Facts();
    BEPrefix(x, 4, rest);
  }

  lemma GetU64LEOfLE(x: u64, rest: bytes)
    ensures GetU64LE(LE(x, 8) + rest) == Some((x, rest))
  {
    Pow256Facts();
    LEPrefix(x, 8, rest);
  }

  /** `put_length_prefixed_slice`: a u32 little-endian length, then the bytes. */
  function LengthPrefixed(s: bytes): (r: bytes)
    requires |s| <= U32_MAX
    ensures |r| == 4 + |s|
  {
    LE(|s|, 4) + s
  }

  function GetLengthPrefixed(s: bytes): Option<(bytes, bytes)> {
    match GetU32LE(s)
    case None => None
    case Some((n, r)) => if |r| < n then None else Some((r[..n], r[n..]))
  }

  lemma LengthPrefixedRoundTrip(s: bytes, rest: bytes)
    requires |s| <= U32_MAX
    ensures GetLengthPrefixed(LengthPrefixed(s) + rest) == Some((s, rest))
  {
    assert LengthPrefixed(s) + rest == LE(|s|, 4) + (s + rest);
    GetU32LEOfLE(|s|, s + rest);
    assert (s + rest)[..|s|] == s && (s + rest)[|s|..] == rest;
  }

  // ---------------------------------------------------------------------
  // Block metadata

  /** `BlockMeta::encode`: offset, len and uncompressed size (u32 LE), then the length-prefixed smallest key. */
  function BlockMetaBytes(b: BlockMeta): bytes
    requires |b.smallestKey| <= U32_MAX
  {
    LE(b.offset, 4) + (LE(b.len, 4) + (LE(b.uncompressedSize, 4) + LengthPrefixed(b.smallestKey)))
  }

  function DecodeBlockMeta(s: bytes): Option<(BlockMeta, bytes)> {
    match GetU32LE(s)
    case None => None
    case Some((offset, s1)) =>
      match GetU32LE(s1)
      case None => None
      case Some((len, s2)) =>
        match GetU32LE(s2)
        case None => None
        case Some((uncompressed, s3)) =>
          match GetLengthPrefixed(s3)
          case None => None
          case Some((key, s4)) => Some((BlockMeta(key, offset, len, uncompressed), s4))
  }

  /** `BlockMeta::encoded_size`. */
  function BlockMetaEncodedSize(b: BlockMeta): nat {
    16 + |b.smallestKey|
  }

  lemma {:induction false} BlockMetaRoundTrip(b: BlockMeta, rest: bytes)
    requires |b.smallestKey| <= U32_MAX
    ensures DecodeBlockMeta(BlockMetaBytes(b) + rest) == Some((b, rest))
    ensures |BlockMetaBytes(b)| == BlockMetaEncodedSize(b)
  {
    var s3 := LengthPrefixed(b.smallestKey) + rest;
    var s2 := LE(b.uncompressedSize, 4) + s3;
    var s1 := LE(b.len, 4) + s2;
    assert BlockMetaBytes(b) + rest == LE(b.offset, 4) + s1;
    GetU32LEOfLE(b.offset, s1);
    GetU32LEOfLE(b.len, s2);
    GetU32LEOfLE(b.uncompressedSize, s3);
    LengthPrefixedRoundTrip(b.smallestKey, rest);
    DecodeBlockMetaSteps(LE(b.offset, 4) + s1, b.offset, s1, b.len, s2, b.uncompressedSize, s3, b.smallestKey, rest);
  }

  lemma DecodeBlockMetaSteps(s: bytes, offset: u32, s1: bytes, len: u32, s2: bytes, uncompressed: u32, s3: bytes,
                             key: bytes, s4: bytes)
    requires GetU32LE(s) == Some((offset, s1)) && GetU32LE(s1) == Some((len, s2))
    requires GetU32LE(s2) == Some((uncompressed, s3)) && GetLengthPrefixed(s3) == Some((key, s4))
    ensures DecodeBlockMeta(s) == Some((BlockMeta(key, offset, len, uncompressed), s4))
  {
  }

  // ---------------------------------------------------------------------
  // Monotonic delete events

  /** `UserKey::encode_length_prefixed`: table id and key length (u32 big-endian), then the key. */
  function UserKeyBytes(k: UserKey): bytes
    requires |k.tableKey| <= U32_MAX
  {
    BE(k.tableId, 4) + (BE(|k.tableKey|, 4) + k.tableKey)
  }

  function DecodeUserKey(s: bytes): Option<(UserKey, bytes)> {
    match GetU32BE(s)
    case None => None
    case Some((tid, s1)) =>
      match GetU32BE(s1)
      case None => None
      case Some((n, s2)) => if |s2| < n then None else Some((UserKey(tid, s2[..n]), s2[n..]))
  }

  lemma UserKeyRoundTrip(k: UserKey, rest: bytes)
    requires |k.tableKey| <= U32_MAX
    ensures DecodeUserKey(UserKeyBytes(k) + rest) == Some((k, rest))
  {
    assert UserKeyBytes(k) + rest == BE(k.tableId, 4) + (BE(|k.tableKey|, 4) + (k.tableKey + rest));
    GetU32BEOfBE(k.tableId, BE(|k.tableKey|, 4) + (k.tableKey + rest));
    GetU32BEOfBE(|k.tableKey|, k.tableKey + rest);
    assert (k.tableKey + rest)[..|k.tableKey|] == k.tableKey;
    assert (k.tableKey + rest)[|k.tableKey|..] == rest;
  }

  /** `MonotonicDeleteEvent::encode`: the user key, a 0/1 exclusion flag byte, the epoch (u64 LE). */
  function EventBytes(e: MonotonicDeleteEvent): bytes
    requires |e.eventKey.leftUserKey.tableKey| <= U32_MAX
  {
    UserKeyBytes(e.eventKey.leftUserKey)
      + ([if e.eventKey.isExcludeLeftKey then 1 else 0] + LE(e.newEpoch, 8))
  }

  /** `MonotonicDeleteEvent::decode`; a flag byte other than 0 or 1 is rejected. */
  function DecodeEvent(s: bytes): Option<(MonotonicDeleteEvent, bytes)> {
    match DecodeUserKey(s)
    case None => None
    case Some((key, s1)) =>
      match GetU8(s1)
      case None => None
      case Some((flag, s2)) =>
        if flag > 1 then None
        else
          match GetU64LE(s2)
          case None => None
          case Some((epoch, s3)) =>
            Some((MonotonicDeleteEvent(PointRange(key, flag == 1), epoch), s3))
  }

  /** `MonotonicDeleteEvent::encoded_size`: length field, `encoded_len` (table id + key), flag, epoch. */
  function EventEncodedSize(e: MonotonicDeleteEvent): nat {
    4 + (4 + |e.eventKey.leftUserKey.tableKey|) + 1 + 8
  }

  lemma {:induction false} EventRoundTrip(e: MonotonicDeleteEvent, rest: bytes)
    requires |e.eventKey.leftUserKey.tableKey| <= U32_MAX
    ensures DecodeEvent(EventBytes(e) + rest) == Some((e, rest))
    ensures |EventBytes(e)| == EventEncodedSize(e)
  {
    var k := e.eventKey.leftUserKey;
    var flag: byte := if e.eventKey.isExcludeLeftKey then 1 else 0;
    var tail := [flag] + (LE(e.newEpoch, 8) + rest);
    assert EventBytes(e) + rest == UserKeyBytes(k) + tail;
    UserKeyRoundTrip(k, tail);
    assert tail[1..] == LE(e.newEpoch, 8) + rest;
    GetU64LEOfLE(e.newEpoch, rest);
  }

  /** The exclusion flag must be 0 or 1: any other byte makes decoding fail. */
  lemma BadFlagRejected(k: UserKey, flag: byte, rest: bytes)
    requires |k.tableKey| <= U32_MAX && flag > 1
    ensures DecodeEvent(UserKeyBytes(k) + ([flag] + rest)) == None
  {
    UserKeyRoundTrip(k, [flag] + rest);
  }

  // ---------------------------------------------------------------------
  // Sequences of entries

  predicate BlockMetasFit(bs: seq<BlockMeta>) {
    forall i :: 0 <= i < |bs| ==> |bs[i].smallestKey| <= U32_MAX
  }

  predicate EventsFit(es: seq<MonotonicDeleteEvent>) {
    forall i :: 0 <= i < |es| ==> |es[i].eventKey.leftUserKey.tableKey| <= U32_MAX
  }

  function BlockMetasBytes(bs: seq<BlockMeta>): bytes
    requires BlockMetasFit(bs)
  {
    if |bs| == 0 then [] else BlockMetaBytes(bs[0]) + BlockMetasBytes(bs[1..])
  }

  function EventsBytes(es: seq<MonotonicDeleteEvent>): bytes
    requires EventsFit(es)
  {
    if |es| == 0 then [] else EventBytes(es[0]) + EventsBytes(es[1..])
  }

  lemma {:induction false} BlockMetasBytesSnoc(bs: seq<BlockMeta>, i: nat)
    requires BlockMetasFit(bs) && i < |bs|
    ensures BlockMetasBytes(bs[..i + 1]) == BlockMetasBytes(bs[..i]) + BlockMetaBytes(bs[i])
  {
    if i > 0 {
      assert bs[..i + 1][1..] == bs[1..][..i];
      assert bs[..i][1..] == bs[1..][..i - 1];
      BlockMetasBytesSnoc(bs[1..], i - 1);
    }
  }

  lemma {:induction false} EventsBytesSnoc(es: seq<MonotonicDeleteEvent>, i: nat)
    requires EventsFit(es) && i < |es|
    ensures EventsBytes(es[..i + 1]) == EventsBytes(es[..i]) + EventBytes(es[i])
  {
    if i > 0 {
      assert es[..i + 1][1..] == es[1..][..i];
      assert es[..i][1..] == es[1..][..i - 1];
      EventsBytesSnoc(es[1..], i - 1);
    }
  }

  /** `n` entries read one after another by `dec`, with what follows them. */
  function DecodeMany<T>(dec: bytes -> Option<(T, bytes)>, n: nat, s: bytes): Option<(seq<T>, bytes)> {
    if n == 0 then Some(([], s))
    else
      match dec(s)
      case None => None
      case Some((x, s1)) =>
        match DecodeMany(dec, n - 1, s1)
        case None => None
        case Some((xs, s2)) => Some(([x] + xs, s2))
  }

  /** One entry read by `dec`, then `n` more. */
  lemma DecodeManyCons<T>(dec: bytes -> Option<(T, bytes)>, n: nat, s: bytes, x: T, s1: bytes, xs: seq<T>, s2: bytes)
    requires dec(s) == Some((x, s1)) && DecodeMany(dec, n, s1) == Some((xs, s2))
    ensures DecodeMany(dec, n + 1, s) == Some(([x] + xs, s2))
  {
  }

  lemma {:induction false} BlockMetasRoundTrip(bs: seq<BlockMeta>, rest: bytes)
    requires BlockMetasFit(bs)
    ensures DecodeMany(DecodeBlockMeta, |bs|, BlockMetasBytes(bs) + rest) == Some((bs, rest))
  {
    if |bs| > 0 {
      var tail := BlockMetasBytes(bs[1..]) + rest;
      assert BlockMetasBytes(bs) + rest == BlockMetaBytes(bs[0]) + tail;
      BlockMetaRoundTrip(bs[0], tail);
      BlockMetasRoundTrip(bs[1..], rest);
      DecodeManyCons(DecodeBlockMeta, |bs| - 1, BlockMetaBytes(bs[0]) + tail, bs[0], tail, bs[1..], rest);
      assert [bs[0]] + bs[1..] == bs;
    } else {
      assert bs == [] && BlockMetasBytes(bs) + rest == rest;
    }
  }

  lemma {:induction false} EventsRoundTrip(es: seq<MonotonicDeleteEvent>, rest: bytes)
    requires EventsFit(es)
    ensures DecodeMany(DecodeEvent, |es|, EventsBytes(es) + rest) == Some((es, rest))
  {
    if |es| > 0 {
      var tail := EventsBytes(es[1..]) + rest;
      assert EventsBytes(es) + rest == EventBytes(es[0]) + tail;
      EventRoundTrip(es[0], tail);
      EventsRoundTrip(es[1..], rest);
      DecodeManyCons(DecodeEvent, |es| - 1, EventBytes(es[0]) + tail, es[0], tail, es[1..], rest);
      assert [es[0]] + es[1..] == es;
    } else {
      assert es == [] && EventsBytes(es) + rest == rest;
    }
  }

  // ---------------------------------------------------------------------
  // The whole footer

  /** What `encode_to` can write: every count and length fits its u32 length field. */
  predicate Encodable(m: SstableMeta) {
    |m.blockMetas| <= U32_MAX && BlockMetasFit(m.blockMetas)
    && |m.bloomFilter| <= U32_MAX && |m.smallestKey| <= U32_MAX && |m.largestKey| <= U32_MAX
    && |m.monotonicTombstoneEvents| <= U32_MAX && EventsFit(m.monotonicTombstoneEvents)
  }

  /** Everything `encode_to` writes before the checksum. */
  function MetaPayload(m: SstableMeta): bytes
    requires Encodable(m)
  {
    LE(|m.blockMetas|, 4)
    + (BlockMetasBytes(m.blockMetas)
    + (LengthPrefixed(m.bloomFilter)
    + (LE(m.estimatedSize, 4)
    + (LE(m.keyCount, 4)
    + (LengthPrefixed(m.smallestKey)
    + (LengthPrefixed(m.largestKey)
    + (LE(|m.monotonicTombstoneEvents|, 4)
    + (EventsBytes(m.monotonicTombstoneEvents)
    + LE(m.metaOffset, 8)))))))))
  }

  /**
   * `encode_to_bytes`: the payload, its checksum under `hash`, the current
   * format VERSION (whatever `m.version` says) and the MAGIC number.
   */
  function EncodeToBytes(hash: bytes -> u64, m: SstableMeta): (r: bytes)
    requires Encodable(m)
    ensures |r| >= 24
  {
    var p := MetaPayload(m);
    p + (LE(hash(p), 8) + (LE(VERSION, 4) + LE(MAGIC, 4)))
  }

  /** The fields that follow the checksum, read front to back. */
  function DecodePayload(s: bytes, version: u32): Option<SstableMeta> {
    match GetU32LE(s)
    case None => None
    case Some((nBlocks, s1)) =>
      match DecodeMany(DecodeBlockMeta, nBlocks, s1)
      case None => None
      case Some((blocks, s2)) =>
        match GetLengthPrefixed(s2)
        case None => None
        case Some((bloom, s3)) =>
          match GetU32LE(s3)
          case None => None
          case Some((estimated, s4)) =>
            match GetU32LE(s4)
            case None => None
            case Some((keyCount, s5)) =>
              match GetLengthPrefixed(s5)
              case None => None
              case Some((smallest, s6)) =>
                match GetLengthPrefixed(s6)
                case None => None
                case Some((largest, s7)) =>
                  match GetU32LE(s7)
                  case None => None
                  case Some((nEvents, s8)) =>
                    match DecodeMany(DecodeEvent, nEvents, s8)
                    case None => None
                    case Some((events, s9)) =>
                      match GetU64LE(s9)
                      case None => None
                      case Some((metaOffset, _)) =>
                        Some(SstableMeta(blocks, bloom, estimated, keyCount, smallest, largest,
                                         metaOffset, events, version))
  }

  function TrailerU32(buf: bytes, from: nat): u32
    requires from + 4 <= |buf|
  {
    Pow256Facts(); FromLE(buf[from..from + 4])
  }

  function TrailerU64(buf: bytes, from: nat): u64
    requires from + 8 <= |buf|
  {
    Pow256Facts(); FromLE(buf[from..from + 8])
  }

  /**
   * `SstableMeta::decode`: the trailer is read from the end (magic, then
   * version, then checksum) and each is checked before anything is parsed.
   */
  function DecodeMeta(hash: bytes -> u64, buf: bytes): (r: Result<SstableMeta>)
    ensures (|buf| >= 4 && TrailerU32(buf, |buf| - 4) != MAGIC)
            ==> r == Err(MagicMismatch(MAGIC, TrailerU32(buf, |buf| - 4)))
    ensures (|buf| >= 8 && TrailerU32(buf, |buf| - 4) == MAGIC && TrailerU32(buf, |buf| - 8) != VERSION)
            ==> r == Err(InvalidFormatVersion(TrailerU32(buf, |buf| - 8)))
    ensures r.Ok? ==> |buf| >= 24 && TrailerU32(buf, |buf| - 4) == MAGIC
                      && TrailerU32(buf, |buf| - 8) == VERSION
                      && hash(buf[..|buf| - 16]) == TrailerU64(buf, |buf| - 16)
                      && r.value.version == VERSION
  {
    if |buf| < 4 then Err(Malformed)
    else
      var magic := TrailerU32(buf, |buf| - 4);
      if magic != MAGIC then Err(MagicMismatch(MAGIC, magic))
      else if |buf| < 8 then Err(Malformed)
      else
        var version := TrailerU32(buf, |buf| - 8);
        if version != VERSION then Err(InvalidFormatVersion(version))
        else if |buf| < 16 then Err(Malformed)
        else
          var checksum := TrailerU64(buf, |buf| - 16);
          var payload := buf[..|buf| - 16];
          if hash(payload) != checksum then Err(ChecksumMismatch(checksum, hash(payload)))
          else
            match DecodePayload(payload, version)
            case None => Err(Malformed)
            case Some(m) => assert |payload| >= 8; Ok(m)
  }

  lemma {:induction false} PayloadRoundTrip(m: SstableMeta)
    requires Encodable(m) && m.version == VERSION
    ensures DecodePayload(MetaPayload(m), VERSION) == Some(m)
  {
    var ev := EventsBytes(m.monotonicTombstoneEvents);
    var t9 := LE(m.metaOffset, 8);
    var t8 := ev + t9;
    var t7 := LE(|m.monotonicTombstoneEvents|, 4) + t8;
    var t6 := LengthPrefixed(m.largestKey) + t7;
    var t5 := LengthPrefixed(m.smallestKey) + t6;
    var t4 := LE(m.keyCount, 4) + t5;
    var t3 := LE(m.estimatedSize, 4) + t4;
    var t2 := LengthPrefixed(m.bloomFilter) + t3;
    var t1 := BlockMetasBytes(m.blockMetas) + t2;
    assert MetaPayload(m) == LE(|m.blockMetas|, 4) + t1;
    GetU32LEOfLE(|m.blockMetas|, t1);
    BlockMetasRoundTrip(m.blockMetas, t2);
    LengthPrefixedRoundTrip(m.bloomFilter, t3);
    GetU32LEOfLE(m.estimatedSize, t4);
    GetU32LEOfLE(m.keyCount, t5);
    LengthPrefixedRoundTrip(m.smallestKey, t6);
    LengthPrefixedRoundTrip(m.largestKey, t7);
    GetU32LEOfLE(|m.monotonicTombstoneEvents|, t8);
    EventsRoundTrip(m.monotonicTombstoneEvents, t9);
    assert t9 == t9 + [];
    GetU64LEOfLE(m.metaOffset, []);
    DecodePayloadSteps(MetaPayload(m), VERSION, |m.blockMetas|, t1, m.blockMetas, t2, m.bloomFilter, t3,
      m.estimatedSize, t4, m.keyCount, t5, m.smallestKey, t6, m.largestKey, t7,
      |m.monotonicTombstoneEvents|, t8, m.monotonicTombstoneEvents, t9, m.metaOffset, []);
  }

  /** `DecodePayload` succeeds once each field in turn is read. */
  lemma DecodePayloadSteps(s: bytes, version: u32, nBlocks: u32, s1: bytes, blocks: seq<BlockMeta>, s2: bytes,
                           bloom: bytes, s3: bytes, estimated: u32, s4: bytes, keyCount: u32, s5: bytes,
                           smallest: bytes, s6: bytes, largest: bytes, s7: bytes, nEvents: u32, s8: bytes,
                           events: seq<MonotonicDeleteEvent>, s9: bytes, metaOffset: u64, s10: bytes)
    requires GetU32LE(s) == Some((nBlocks, s1)) && DecodeMany(DecodeBlockMeta, nBlocks, s1) == Some((blocks, s2))
    requires GetLengthPrefixed(s2) == Some((bloom, s3))
    requires GetU32LE(s3) == Some((estimated, s4)) && GetU32LE(s4) == Some((keyCount, s5))
    requires GetLengthPrefixed(s5) == Some((smallest, s6)) && GetLengthPrefixed(s6) == Some((largest, s7))
    requires GetU32LE(s7) == Some((nEvents, s8)) && DecodeMany(DecodeEvent, nEvents, s8) == Some((events, s9))
    requires GetU64LE(s9) == Some((metaOffset, s10))
    ensures DecodePayload(s, version)
         == Some(SstableMeta(blocks, bloom, estimated, keyCount, smallest, largest, metaOffset, events, version))
  {
  }

  /** `MetaPayload` in the order `encode_to` appends its fields. */
  lemma PayloadLeftNested(m: SstableMeta)
    requires Encodable(m)
    ensures MetaPayload(m) ==
      LE(|m.blockMetas|, 4) + BlockMetasBytes(m.blockMetas) + LengthPrefixed(m.bloomFilter)
      + LE(m.estimatedSize, 4) + LE(m.keyCount, 4) + LengthPrefixed(m.smallestKey)
      + LengthPrefixed(m.largestKey) + LE(|m.monotonicTombstoneEvents|, 4)
      + EventsBytes(m.monotonicTombstoneEvents) + LE(m.metaOffset, 8)
  {
    Regroup(LE(|m.blockMetas|, 4), BlockMetasBytes(m.blockMetas), LengthPrefixed(m.bloomFilter),
      LE(m.estimatedSize, 4), LE(m.keyCount, 4), LengthPrefixed(m.smallestKey),
      LengthPrefixed(m.largestKey), LE(|m.monotonicTombstoneEvents|, 4),
      EventsBytes(m.monotonicTombstoneEvents), LE(m.metaOffset, 8));
  }

  /** Ten byte strings appended left to right equal the same appended right to left. */
  lemma Regroup(a: bytes, b: bytes, c: bytes, d: bytes, e: bytes, f: bytes, g: bytes, h: bytes,
                i: bytes, j: bytes)
    ensures a + b + c + d + e + f + g + h + i + j
         == a + (b + (c + (d + (e + (f + (g + (h + (i + j))))))))
  {
    var t := h + (i + j);
    assert g + t == g + h + i + j;
    var u := e + (f + (g + t));
    assert u == e + f + g + h + i + j;
    var v := c + (d + u);
    assert v == c + d + e + f + g + h + i + j;
    assert a + (b + v) == a + b + c + d + e + f + g + h + i + j;
  }

  /** The trailer `encode_to` writes after a payload `p` reads back as magic, version and checksum. */
  lemma TrailerFacts(p: bytes, checksum: u64)
    ensures var buf := p + (LE(checksum, 8) + (LE(VERSION, 4) + LE(MAGIC, 4)));
            |buf| == |p| + 16
            && TrailerU32(buf, |buf| - 4) == MAGIC
            && TrailerU32(buf, |buf| - 8) == VERSION
            && TrailerU64(buf, |buf| - 16) == checksum
            && buf[..|buf| - 16] == p
  {
    var buf := p + (LE(checksum, 8) + (LE(VERSION, 4) + LE(MAGIC, 4)));
    var n := |buf|;
    Pow256Facts();
    assert buf[n - 4..n] == LE(MAGIC, 4);
    LERoundTrip(MAGIC, 4);
    assert buf[n - 8..n - 4] == LE(VERSION, 4);
    LERoundTrip(VERSION, 4);
    assert buf[n - 16..n - 8] == LE(checksum, 8);
    LERoundTrip(checksum, 8);
    assert buf[..n - 16] == p;
  }

  /** A well-formed trailer after any payload: decoding comes down to parsing the payload. */
  lemma {:induction false} DecodeWithTrailer(hash: bytes -> u64, p: bytes)
    ensures DecodeMeta(hash, p + (LE(hash(p), 8) + (LE(VERSION, 4) + LE(MAGIC, 4))))
            == (match DecodePayload(p, VERSION)
                case None => Err(Malformed)
                case Some(m) => Ok(m))
  {
    TrailerFacts(p, hash(p));
  }

  /** Decoding what `encode_to_bytes` wrote gives the footer back. */
  lemma {:induction false} DecodeEncode(hash: bytes -> u64, m: SstableMeta)
    requires Encodable(m) && m.version == VERSION
    ensures DecodeMeta(hash, EncodeToBytes(hash, m)) == Ok(m)
  {
    DecodeWithTrailer(hash, MetaPayload(m));
    PayloadRoundTrip(m);
  }

  /** A footer of any other version is decoded with VERSION: encoding does not preserve `version`. */
  lemma {:induction false} DecodeEncodeAnyVersion(hash: bytes -> u64, m: SstableMeta)
    requires Encodable(m)
    ensures DecodeMeta(hash, EncodeToBytes(hash, m)) == Ok(m.(version := VERSION))
  {
    var m1 := m.(version := VERSION);
    assert MetaPayload(m1) == MetaPayload(m);
    assert EncodeToBytes(hash, m1) == EncodeToBytes(hash, m);
    DecodeEncode(hash, m1);
  }

  /** A payload whose checksum does not match is rejected before it is parsed. */
  lemma {:induction false} CorruptPayloadRejected(hash: bytes -> u64, m: SstableMeta, p: bytes)
    requires Encodable(m) && hash(p) != hash(MetaPayload(m))
    ensures DecodeMeta(hash, p + EncodeToBytes(hash, m)[|MetaPayload(m)|..])
            == Err(ChecksumMismatch(hash(MetaPayload(m)), hash(p)))
  {
    var q := MetaPayload(m);
    var trailer := LE(hash(q), 8) + (LE(VERSION, 4) + LE(MAGIC, 4));
    assert EncodeToBytes(hash, m)[|q|..] == trailer;
    TrailerFacts(p, hash(q));
  }

  /** `SstableMeta::encoded_size`. */
  function EncodedSize(m: SstableMeta): nat {
    4 + SumBlockMetaSizes(m.blockMetas)
    + 4 + SumEventSizes(m.monotonicTombstoneEvents)
    + 4 + |m.bloomFilter|
    + 4 + 4
    + 4 + |m.smallestKey|
    + 4 + |m.largestKey|
    + 8 + 8 + 4 + 4
  }

  function SumBlockMetaSizes(bs: seq<BlockMeta>): nat {
    if |bs| == 0 then 0 else BlockMetaEncodedSize(bs[0]) + SumBlockMetaSizes(bs[1..])
  }

  function SumEventSizes(es: seq<MonotonicDeleteEvent>): nat {
    if |es| == 0 then 0 else EventEncodedSize(es[0]) + SumEventSizes(es[1..])
  }

  lemma {:induction false} BlockMetasSize(bs: seq<BlockMeta>)
    requires BlockMetasFit(bs)
    ensures |BlockMetasBytes(bs)| == SumBlockMetaSizes(bs)
  {
    if |bs| > 0 {
      BlockMetaRoundTrip(bs[0], []);
      BlockMetasSize(bs[1..]);
    }
  }

  lemma {:induction false} EventsSize(es: seq<MonotonicDeleteEvent>)
    requires EventsFit(es)
    ensures |EventsBytes(es)| == SumEventSizes(es)
  {
    if |es| > 0 {
      EventRoundTrip(es[0], []);
      EventsSize(es[1..]);
    }
  }

  /** The predicted size is exactly the number of bytes `encode_to` writes. */
  lemma EncodedSizeExact(hash: bytes -> u64, m: SstableMeta)
    requires Encodable(m)
    ensures |EncodeToBytes(hash, m)| == EncodedSize(m)
  {
    BlockMetasSize(m.blockMetas);
    EventsSize(m.monotonicTombstoneEvents);
  }

  // ---------------------------------------------------------------------
  // The imperative encoder and decoder

  /** The loop of `encode_to` over the block metas. */
  method EncodeBlockMetas(bs: seq<BlockMeta>, buf: bytes) returns (out: bytes)
    requires BlockMetasFit(bs)
    ensures out == buf + BlockMetasBytes(bs)
  {
    out := buf;
    var i := 0;
    while i < |bs|
      invariant 0 <= i <= |bs|
      invariant out == buf + BlockMetasBytes(bs[..i])
    {
      BlockMetasBytesSnoc(bs, i);
      out := out + BlockMetaBytes(bs[i]);
      i := i + 1;
    }
    assert bs[..i] == bs;
  }

  /** The loop of `encode_to` over the monotonic delete events. */
  method EncodeEvents(es: seq<MonotonicDeleteEvent>, buf: bytes) returns (out: bytes)
    requires EventsFit(es)
    ensures out == buf + EventsBytes(es)
  {
    out := buf;
    var i := 0;
    while i < |es|
      invariant 0 <= i <= |es|
      invariant out == buf + EventsBytes(es[..i])
    {
      EventsBytesSnoc(es, i);
      out := out + EventBytes(es[i]);
      i := i + 1;
    }
    assert es[..i] == es;
  }

  /** `SstableMeta::encode_to`: appends the footer to `buf`, leaving what was there untouched. */
  method EncodeTo(hash: bytes -> u64, m: SstableMeta, buf: bytes) returns (out: bytes)
    requires Encodable(m)
    ensures out == buf + EncodeToBytes(hash, m)
    ensures |out| == |buf| + EncodedSize(m)
  {
    var start := |buf|;
    var body := EncodePayload(m);
    out := buf + body;
    assert out[start..] == body;
    var checksum := hash(out[start..]);
    out := out + LE(checksum, 8);
    out := out + LE(VERSION, 4);
    out := out + LE(MAGIC, 4);
    EncodedSizeExact(hash, m);
  }

  /** The field-by-field writes of `encode_to`, before the checksum. */
  method EncodePayload(m: SstableMeta) returns (body: bytes)
    requires Encodable(m)
    ensures body == MetaPayload(m)
  {
    body := LE(|m.blockMetas|, 4);
    body := EncodeBlockMetas(m.blockMetas, body);
    body := body + LengthPrefixed(m.bloomFilter);
    body := body + LE(m.estimatedSize, 4);
    body := body + LE(m.keyCount, 4);
    body := body + LengthPrefixed(m.smallestKey);
    body := body + LengthPrefixed(m.largestKey);
    body := body + LE(|m.monotonicTombstoneEvents|, 4);
    body := EncodeEvents(m.monotonicTombstoneEvents, body);
    body := body + LE(m.metaOffset, 8);
    PayloadLeftNested(m);
  }

  /** Entries decoded so far, in front of what the rest of the loop decodes. */
  function Prepend<T>(pre: seq<T>, r: Option<(seq<T>, bytes)>): Option<(seq<T>, bytes)> {
    if r.None? then None else Some((pre + r.value.0, r.value.1))
  }

  lemma PrependNothing<T>(r: Option<(seq<T>, bytes)>)
    ensures Prepend([], r) == r
  {
    if r.Some? { assert [] + r.value.0 == r.value.0; }
  }

  lemma PrependStep<T>(pre: seq<T>, x: T, r: Option<(seq<T>, bytes)>)
    ensures Prepend(pre, if r.None? then None else Some(([x] + r.value.0, r.value.1)))
            == Prepend(pre + [x], r)
  {
    if r.Some? { assert pre + ([x] + r.value.0) == (pre + [x]) + r.value.0; }
  }

  /** One turn of a decoding loop: an entry that decodes moves from the rest to the front. */
  lemma LoopStep<T>(dec: bytes -> Option<(T, bytes)>, pre: seq<T>, n: nat, s: bytes, x: T, s1: bytes)
    requires n > 0 && dec(s) == Some((x, s1))
    ensures Prepend(pre, DecodeMany(dec, n, s)) == Prepend(pre + [x], DecodeMany(dec, n - 1, s1))
  {
    PrependStep(pre, x, DecodeMany(dec, n - 1, s1));
  }

  /** The loops of `decode` over the block metas and over the monotonic delete events: `count`
      entries pushed in order, stopping at the first that does not decode. */
  method DecodeLoop<T>(dec: bytes -> Option<(T, bytes)>, count: nat, s0: bytes) returns (r: Option<(seq<T>, bytes)>)
    ensures r == DecodeMany(dec, count, s0)
  {
    var s := s0;
    var entries: seq<T> := [];
    PrependNothing(DecodeMany(dec, count, s0));
    var k := 0;
    while k < count
      invariant 0 <= k <= count
      invariant DecodeMany(dec, count, s0) == Prepend(entries, DecodeMany(dec, count - k, s))
    {
      var d := dec(s);
      if d.None? { return None; }
      var (x, s1) := d.value;
      LoopStep(dec, entries, count - k, s, x, s1);
      entries, s, k := entries + [x], s1, k + 1;
    }
    assert entries + [] == entries;
    return Some((entries, s));
  }

  /** The field-by-field part of `decode`, after the trailer checks. */
  method DecodeFields(payload: bytes, version: u32) returns (r: Option<SstableMeta>)
    ensures r == DecodePayload(payload, version)
  {
    var nb := GetU32LE(payload);
    if nb.None? { return None; }
    var blocks := DecodeLoop(DecodeBlockMeta, nb.value.0, nb.value.1);
    if blocks.None? { return None; }
    var bloom := GetLengthPrefixed(blocks.value.1);
    if bloom.None? { return None; }
    var estimated := GetU32LE(bloom.value.1);
    if estimated.None? { return None; }
    var keyCount := GetU32LE(estimated.value.1);
    if keyCount.None? { return None; }
    var smallest := GetLengthPrefixed(keyCount.value.1);
    if smallest.None? { return None; }
    var largest := GetLengthPrefixed(smallest.value.1);
    if largest.None? { return None; }
    var ne := GetU32LE(largest.value.1);
    if ne.None? { return None; }
    var events := DecodeLoop(DecodeEvent, ne.value.0, ne.value.1);
    if events.None? { return None; }
    var metaOffset := GetU64LE(events.value.1);
    if metaOffset.None? { return None; }
    r := Some(SstableMeta(blocks.value.0, bloom.value.0, estimated.value.0, keyCount.value.0,
                          smallest.value.0, largest.value.0, metaOffset.value.0,
                          events.value.0, version));
  }

  /** `SstableMeta::decode`: walks a cursor back over magic, version and checksum, then parses. */
  method Decode(hash: bytes -> u64, buf: bytes) returns (r: Result<SstableMeta>)
    ensures r == DecodeMeta(hash, buf)
  {
    if |buf| < 4 { return Err(Malformed); }
    var cursor := |buf| - 4;
    var magic := TrailerU32(buf, cursor);
    if magic != MAGIC { return Err(MagicMismatch(MAGIC, magic)); }
    if cursor < 4 { return Err(Malformed); }
    cursor := cursor - 4;
    var version := TrailerU32(buf, cursor);
    if version != VERSION { return Err(InvalidFormatVersion(version)); }
    if cursor < 8 { return Err(Malformed); }
    cursor := cursor - 8;
    var checksum := TrailerU64(buf, cursor);
    var payload := buf[..cursor];
    if hash(payload) != checksum { return Err(ChecksumMismatch(checksum, hash(payload))); }
    var m := DecodeFields(payload, version);
    if m.None? { return Err(Malformed); }
    r := Ok(m.value);
  }

  // ---------------------------------------------------------------------
  // Block lookups on an opened table

  /** `Sstable::block_count`. */
  function BlockCount(sst: Sstable): (r: nat)
    ensures r == |sst.meta.blockMetas|
  {
    |sst.meta.blockMetas|
  }

  /** `Sstable::calculate_block_info`: where block `i` lies in the object and how large it unpacks. */
  function CalculateBlockInfo(sst: Sstable, i: nat): (r: (BlockLocation, nat))
    requires i < BlockCount(sst)
    ensures r.0.offset == sst.meta.blockMetas[i].offset && r.0.size == sst.meta.blockMetas[i].len
    ensures r.1 == sst.meta.blockMetas[i].uncompressedSize
  {
    var b := sst.meta.blockMetas[i];
    (BlockLocation(b.offset, b.len), b.uncompressedSize)
  }

  /** Opening a table from its encoded footer locates every block where the writer said it was. */
  lemma BlockInfoAfterReopen(hash: bytes -> u64, id: u64, m: SstableMeta, i: nat)
    requires Encodable(m) && i < |m.blockMetas|
    ensures DecodeMeta(hash, EncodeToBytes(hash, m)).Ok?
    ensures var sst := Sstable(id, DecodeMeta(hash, EncodeToBytes(hash, m)).value);
            i < BlockCount(sst)
            && CalculateBlockInfo(sst, i)
               == (BlockLocation(m.blockMetas[i].offset, m.blockMetas[i].len),
                   m.blockMetas[i].uncompressedSize)
  {
    DecodeEncodeAnyVersion(hash, m);
  }
}
