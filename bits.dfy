/** The value-level meaning of BitField8 and WatchedBitfield
    (resources/lib/classes/StremioLibrary.py): bits in a byte buffer, the
    wire string `<anchorId>:<anchorLen>:<payload>`, and its anchor-based
    resize against a changed episode list. The classes in module Bitfield
    are proved to compute these functions. */
module Bits {
  import opened Wrappers
  import opened Text
  import opened Seqs
  import opened Packing

  /** `math.ceil(n / 8)` for every integer `n` (Dafny's `/` floors here). */
  function CeilDiv8(n: int): int {
    (n + 7) / 8
  }

  /** `1 << k`, spelled out for each bit position of a byte. */
  function Mask(k: nat): byte
    requires k < 8
  {
    if k == 0 then 1 else if k == 1 then 2 else if k == 2 then 4 else if k == 3 then 8
    else if k == 4 then 16 else if k == 5 then 32 else if k == 6 then 64 else 128
  }

  /** Bit `k` of one byte. */
  predicate TestBit(x: byte, k: nat)
    requires k < 8
  {
    x & Mask(k) != 0
  }

  /** One byte with bit `k` forced to `v`: or-ing in the mask, or and-ing
      with its complement. */
  function SetBit(x: byte, k: nat, v: bool): byte
    requires k < 8
  {
    if v then x | Mask(k) else x & !Mask(k)
  }

  /** `BitField8.get`: bit `i % 8` (least significant first) of byte
      `i // 8`, and false past the end of the buffer. */
  predicate BitAt(bytes: seq<byte>, i: nat) {
    i / 8 < |bytes| && TestBit(bytes[i / 8], i % 8)
  }

  /** `BitField8.set`: the buffer with bit `i` forced to `v`. */
  function WithBit(bytes: seq<byte>, i: nat, v: bool): (r: seq<byte>)
    requires i / 8 < |bytes|
    ensures |r| == |bytes|
  {
    bytes[i / 8 := SetBit(bytes[i / 8], i % 8, v)]
  }

  lemma MaskBits(x: byte, a: nat, b: nat, v: bool)
    requires a < 8 && b < 8
    ensures TestBit(SetBit(x, a, v), b) <==> if a == b then v else TestBit(x, b)
  {
  }

  /** A bit index is determined by its byte and its position in the byte. */
  lemma SameBit(i: nat, j: nat)
    requires i / 8 == j / 8 && i % 8 == j % 8
    ensures i == j
  {
  }

  /** Writing a bit changes that bit and no other. */
  lemma WithBitAt(bytes: seq<byte>, i: nat, v: bool, j: nat)
    requires i / 8 < |bytes|
    ensures BitAt(WithBit(bytes, i, v), j) == if j == i then v else BitAt(bytes, j)
  {
    var r := WithBit(bytes, i, v);
    if j / 8 == i / 8 {
      assert r[j / 8] == SetBit(bytes[i / 8], i % 8, v);
      MaskBits(bytes[i / 8], i % 8, j % 8, v);
      if j % 8 == i % 8 {
        SameBit(i, j);
      }
    } else {
      assert j / 8 < |r| ==> r[j / 8] == bytes[j / 8];
    }
  }

  function Zeros(n: int): (r: seq<byte>)
    ensures |r| == if n > 0 then n else 0
    ensures forall k :: 0 <= k < |r| ==> r[k] == 0
  {
    if n <= 0 then [] else Zeros(n - 1) + [0]
  }

  /** Any all-zero buffer is `Zeros` of its length. */
  lemma {:induction false} ZerosUnique(s: seq<byte>)
    requires forall k :: 0 <= k < |s| ==> s[k] == 0
    ensures s == Zeros(|s|)
    decreases |s|
  {
    if s != [] {
      ZerosUnique(s[..|s| - 1]);
      assert s == s[..|s| - 1] + [0];
    }
  }

  lemma ZerosAt(n: int, i: nat)
    ensures !BitAt(Zeros(n), i)
  {
  }

  /** The buffer padded with zero bytes up to `n` bytes, or left alone when
      it is already that long. */
  function ZeroExtend(bytes: seq<byte>, n: int): (r: seq<byte>)
  {
    if n > |bytes| then bytes + Zeros(n - |bytes|) else bytes
  }

  /** Zero-extension keeps every bit, set or not. */
  lemma ZeroExtendAt(bytes: seq<byte>, n: int, i: nat)
    ensures BitAt(ZeroExtend(bytes, n), i) == BitAt(bytes, i)
  {
    if n > |bytes| && i / 8 < n {
      assert ZeroExtend(bytes, n)[i / 8] == if i / 8 < |bytes| then bytes[i / 8] else 0;
    }
  }

  // ---------------------------------------------------------------------------
  // BitField8 as a value

  /** A BitField8: the byte buffer and the logical bit length. */
  datatype Buffer = Buffer(bytes: seq<byte>, length: int)

  /** The invariant of a BitField8: the buffer covers the logical length. */
  predicate Covers(b: Buffer) {
    CeilDiv8(b.length) <= |b.bytes|
  }

  /** `BitField8(n)`: `n` bits, all clear, in `ceil(n / 8)` zero bytes. */
  function NewBuffer(n: nat): (b: Buffer)
    ensures b.length == n && |b.bytes| == CeilDiv8(n) && Covers(b)
    ensures forall i: nat :: !BitAt(b.bytes, i)
  {
    var b := Buffer(Zeros(CeilDiv8(n)), n);
    forall i: nat ensures !BitAt(b.bytes, i) {
      ZerosAt(CeilDiv8(n), i);
    }
    b
  }

  /** `BitField8.from_packed` applied to an already decoded payload. */
  function FromPacked(decoded: seq<byte>, length: Option<int>): (b: Buffer)
    ensures b.length == if length.Some? then length.value else 8 * |decoded|
    ensures Covers(b)
    ensures |b.bytes| == if CeilDiv8(b.length) > |decoded| then CeilDiv8(b.length) else |decoded|
    ensures b.bytes[..|decoded|] == decoded
    ensures forall k :: |decoded| <= k < |b.bytes| ==> b.bytes[k] == 0
  {
    var n := if length.Some? then length.value else 8 * |decoded|;
    Buffer(ZeroExtend(decoded, CeilDiv8(n)), n)
  }

  /** `BitField8.last_index_of(v)`: the highest index below the logical
      length whose bit is `v`, or -1. */
  function LastIndex(bytes: seq<byte>, length: int, v: bool): (r: int)
    ensures r == -1 || (0 <= r < length && BitAt(bytes, r) == v)
    ensures forall j: nat :: r < j < length ==> BitAt(bytes, j) != v
    decreases if length > 0 then length else 0
  {
    if length <= 0 then -1
    else if BitAt(bytes, length - 1) == v then length - 1
    else LastIndex(bytes, length - 1, v)
  }

  // ---------------------------------------------------------------------------
  // WatchedBitfield as a value

  /** A WatchedBitfield: bit `i` tells whether `videoIds[i]` was watched. */
  datatype Watched = Watched(bitfield: Buffer, videoIds: seq<string>)

  /** The shape every constructor of WatchedBitfield produces: the logical
      length is the number of episodes and the buffer covers it. */
  predicate WellFormed(w: Watched) {
    w.bitfield.length == |w.videoIds| && Covers(w.bitfield)
  }

  predicate IsWatched(w: Watched, i: nat) {
    BitAt(w.bitfield.bytes, i)
  }

  /** `WatchedBitfield.construct_from_array(arr, ids)`: the first `i` flags of
      `arr` written into `BitField8(len(ids))`. */
  function FromArray(arr: seq<bool>, n: nat, i: nat): (b: seq<byte>)
    requires i <= |arr| <= 8 * CeilDiv8(n)
    ensures |b| == CeilDiv8(n)
  {
    if i == 0 then NewBuffer(n).bytes
    else WithBit(FromArray(arr, n, i - 1), i - 1, arr[i - 1])
  }

  lemma {:induction false} FromArrayAt(arr: seq<bool>, n: nat, i: nat, j: nat)
    requires i <= |arr| <= 8 * CeilDiv8(n)
    ensures BitAt(FromArray(arr, n, i), j) == (j < i && arr[j])
  {
    if i > 0 {
      FromArrayAt(arr, n, i - 1, j);
      FromArrayStep(arr, n, i, j);
    }
  }

  lemma FromArrayStep(arr: seq<bool>, n: nat, i: nat, j: nat)
    requires 0 < i <= |arr| <= 8 * CeilDiv8(n)
    requires BitAt(FromArray(arr, n, i - 1), j) == (j < i - 1 && arr[j])
    ensures BitAt(FromArray(arr, n, i), j) == (j < i && arr[j])
  {
    WithBitAt(FromArray(arr, n, i - 1), i - 1, arr[i - 1], j);
  }

  /** The anchor `serialize` writes: `max(0, last_index_of(True))`. */
  function AnchorIndex(w: Watched): (k: nat)
    requires WellFormed(w) && |w.videoIds| > 0
    ensures k < |w.videoIds|
    ensures forall j: nat :: k < j < |w.videoIds| ==> !IsWatched(w, j)
    ensures IsWatched(w, k) || forall j: nat :: j < |w.videoIds| ==> !IsWatched(w, j)
  {
    var last := LastIndex(w.bitfield.bytes, w.bitfield.length, true);
    if last < 0 then 0 else last
  }

  /** `WatchedBitfield.serialize`: `<anchorId>:<anchorLen>:<payload>`. */
  function Serialize(w: Watched): string
    requires WellFormed(w) && |w.videoIds| > 0
  {
    var k := AnchorIndex(w);
    w.videoIds[k] + ":" + NatToString(k + 1) + ":" + Pack(w.bitfield.bytes)
  }

  /** The first half of `construct_and_resize`: split on ':', pop the payload
      and the anchor length, and rejoin the rest into the anchor id. */
  function ParseWire(serialized: string): Result<(string, int, string)>
  {
    var parts := Split(serialized, ':');
    if |parts| < 3 then Failure(FormatError)
    else
      var payload := parts[|parts| - 1];
      match ParseInt(parts[|parts| - 2])
      case None => Failure(FormatError)
      case Some(anchorLength) => Success((Join(parts[..|parts| - 2], ':'), anchorLength, payload))
  }

  /** One pass of the copy loop: bit `j` takes old bit `j + offset` when
      that index lies in the old buffer's length, and is left alone
      otherwise. */
  function CopyBit(r: seq<byte>, prev: Buffer, offset: int, j: nat): (r': seq<byte>)
    requires j / 8 < |r|
    ensures |r'| == |r|
  {
    if 0 <= j + offset < prev.length then WithBit(r, j, BitAt(prev.bytes, j + offset)) else r
  }

  lemma CopyBitAt(r: seq<byte>, prev: Buffer, offset: int, j: nat, k: nat)
    requires j / 8 < |r|
    ensures BitAt(CopyBit(r, prev, offset, j), k)
            == if k == j && 0 <= k + offset < prev.length then BitAt(prev.bytes, k + offset) else BitAt(r, k)
  {
    if 0 <= j + offset < prev.length {
      WithBitAt(r, j, BitAt(prev.bytes, j + offset), k);
    }
  }

  /** Bits `0 .. i-1` of the realigned buffer: new bit `k` is old bit
      `k + offset` when that index lies in the old buffer's length. */
  function Shifted(prev: Buffer, offset: int, n: nat, i: nat): (r: seq<byte>)
    requires i <= n
    ensures |r| == CeilDiv8(n)
  {
    if i == 0 then NewBuffer(n).bytes
    else CopyBit(Shifted(prev, offset, n, i - 1), prev, offset, i - 1)
  }

  lemma {:induction false} ShiftedAt(prev: Buffer, offset: int, n: nat, i: nat, k: nat)
    requires i <= n
    ensures BitAt(Shifted(prev, offset, n, i), k)
            == (k < i && 0 <= k + offset < prev.length && BitAt(prev.bytes, k + offset))
  {
    if i == 0 {
      assert Shifted(prev, offset, n, i) == NewBuffer(n).bytes;
    } else {
      ShiftedAt(prev, offset, n, i - 1, k);
      CopyBitAt(Shifted(prev, offset, n, i - 1), prev, offset, i - 1, k);
    }
  }

  /** The shift `construct_and_resize` applies to the stored bits:
      `(anchor_length - 1) - anchor_video_idx`. */
  function AnchorOffset(ids: seq<string>, anchorId: string, anchorLength: int): int {
    (anchorLength - 1) - IndexOf(ids, anchorId)
  }

  /** The second half of `construct_and_resize`: locate the anchor in the
      current list and realign the stored bits against it. */
  function Realign(anchorId: string, anchorLength: int, payload: string, ids: seq<string>): (r: Result<Watched>)
    ensures r.Success? ==> WellFormed(r.value) && r.value.videoIds == ids
  {
    var anchorIdx := IndexOf(ids, anchorId);
    var offset := AnchorOffset(ids, anchorId, anchorLength);
    if anchorIdx == -1 then Success(Watched(NewBuffer(|ids|), ids))
    else match Unpack(payload)
      case None => Failure(DecodeError)
      case Some(decoded) =>
        if offset != 0 then
          var prev := FromPacked(decoded, Some(anchorLength));
          Success(Watched(Buffer(Shifted(prev, offset, |ids|, |ids|), |ids|), ids))
        else Success(Watched(FromPacked(decoded, Some(|ids|)), ids))
  }

  /** `WatchedBitfield.construct_and_resize(serialized, ids)`. */
  function ConstructAndResize(serialized: string, ids: seq<string>): (r: Result<Watched>)
    ensures r.Success? ==> WellFormed(r.value) && r.value.videoIds == ids
  {
    var (anchorId, anchorLength, payload) :- ParseWire(serialized);
    Realign(anchorId, anchorLength, payload, ids)
  }

  // ---------------------------------------------------------------------------
  // Properties of the wire format

  /** Fewer than two ':' in the string means fewer than three components,
      which `construct_and_resize` rejects. */
  lemma {:induction false} SplitCount(s: string, sep: char)
    ensures |Split(s, sep)| == multiset(s)[sep] + 1
    decreases |s|
  {
    if s != [] {
      SplitCount(s[1..], sep);
      assert s == [s[0]] + s[1..];
      assert multiset(s) == multiset{s[0]} + multiset(s[1..]);
    }
  }

  lemma TooFewComponents(serialized: string, ids: seq<string>)
    requires multiset(serialized)[':'] < 2
    ensures ConstructAndResize(serialized, ids) == Failure(FormatError)
  {
    SplitCount(serialized, ':');
  }

  /** A string built as `anchorId:lenText:payload` splits back into its three
      fields, whatever colons the anchor id itself contains. */
  lemma ParseComposed(anchorId: string, lenText: string, payload: string)
    requires ':' !in lenText && ':' !in payload && ParseInt(lenText).Some?
    ensures ParseWire(anchorId + ":" + lenText + ":" + payload)
            == Success((anchorId, ParseInt(lenText).value, payload))
  {
    var tail := lenText + [':'] + payload;
    assert anchorId + ":" + lenText + ":" + payload == anchorId + [':'] + tail;
    SplitAround(anchorId, tail, ':');
    SplitAround(lenText, payload, ':');
    SplitWithoutSeparator(lenText, ':');
    SplitWithoutSeparator(payload, ':');
    var parts := Split(anchorId, ':') + [lenText, payload];
    assert Split(anchorId + [':'] + tail, ':') == parts;
    assert parts[..|parts| - 2] == Split(anchorId, ':');
    JoinSplit(anchorId, ':');
  }

  /** `serialize` writes the anchor id, the anchor's 1-based position and the
      packed buffer, and parsing reads exactly these back. */
  lemma SerializeParses(w: Watched)
    requires WellFormed(w) && |w.videoIds| > 0
    ensures ParseWire(Serialize(w))
            == Success((w.videoIds[AnchorIndex(w)], AnchorIndex(w) + 1, Pack(w.bitfield.bytes)))
  {
    var k := AnchorIndex(w);
    ParseNatToString(k + 1);
    ParseComposed(w.videoIds[k], NatToString(k + 1), Pack(w.bitfield.bytes));
  }

  /** Round trip: with distinct episode ids, decoding against the same list
      takes the no-shift branch and gives back the very same bitfield. */
  lemma SerializeRoundTrip(w: Watched)
    requires WellFormed(w) && |w.videoIds| > 0 && Distinct(w.videoIds)
    ensures ConstructAndResize(Serialize(w), w.videoIds) == Success(w)
  {
    var k := AnchorIndex(w);
    SerializeParses(w);
    IndexOfDistinct(w.videoIds, k);
    UnpackPack(w.bitfield.bytes);
    assert Realign(w.videoIds[k], k + 1, Pack(w.bitfield.bytes), w.videoIds)
        == Success(Watched(FromPacked(w.bitfield.bytes, Some(|w.videoIds|)), w.videoIds));
  }

  /** An anchor id that is no longer in the list yields the all-clear
      bitfield over the new list; the payload is not even decoded. */
  lemma MissingAnchor(anchorId: string, lenText: string, payload: string, ids: seq<string>)
    requires ':' !in lenText && ':' !in payload && ParseInt(lenText).Some?
    requires anchorId !in ids
    ensures ConstructAndResize(anchorId + ":" + lenText + ":" + payload, ids)
            == Success(Watched(NewBuffer(|ids|), ids))
  {
    ParseComposed(anchorId, lenText, payload);
  }

  /** Bit `k` of the stored payload, counted only below the stored length. */
  predicate StoredBit(decoded: seq<byte>, anchorLength: int, k: int) {
    0 <= k < anchorLength && BitAt(decoded, k)
  }

  /** The bits of the shifted buffer, in terms of the decoded payload. */
  lemma ShiftedPayloadAt(decoded: seq<byte>, anchorLength: int, offset: int, n: nat, i: nat)
    ensures BitAt(Shifted(FromPacked(decoded, Some(anchorLength)), offset, n, n), i)
            == (i < n && StoredBit(decoded, anchorLength, i + offset))
  {
    var prev := FromPacked(decoded, Some(anchorLength));
    ShiftedAt(prev, offset, n, n, i);
    if 0 <= i + offset {
      ZeroExtendAt(decoded, CeilDiv8(anchorLength), i + offset);
    }
  }

  /** On the shifting path, new bit `i` is bit `i + offset` of the decoded
      payload when that lies inside the stored length, and clear otherwise. */
  lemma ShiftedBits(anchorId: string, anchorLength: int, payload: string, ids: seq<string>,
                    decoded: seq<byte>, i: nat)
    requires anchorId in ids && Unpack(payload) == Some(decoded)
    requires AnchorOffset(ids, anchorId, anchorLength) != 0
    ensures Realign(anchorId, anchorLength, payload, ids).Success?
    ensures IsWatched(Realign(anchorId, anchorLength, payload, ids).value, i)
            == (i < |ids| && StoredBit(decoded, anchorLength, i + AnchorOffset(ids, anchorId, anchorLength)))
  {
    ShiftedPayloadAt(decoded, anchorLength, AnchorOffset(ids, anchorId, anchorLength), |ids|, i);
  }

  /** `ids` with `x` inserted at position `p`. */
  function Insert(ids: seq<string>, p: nat, x: string): (r: seq<string>)
    requires p <= |ids|
    ensures |r| == |ids| + 1
  {
    ids[..p] + [x] + ids[p..]
  }

  lemma InsertedIndex(ids: seq<string>, p: nat, x: string, k: nat)
    requires Distinct(ids) && x !in ids && p <= k < |ids|
    ensures IndexOf(Insert(ids, p, x), ids[k]) == k + 1
  {
    var ids2 := Insert(ids, p, x);
    assert ids2[k + 1] == ids[k];
    forall j | 0 <= j < k + 1 ensures ids2[j] != ids[k] {
      if j < p {
        assert ids2[j] == ids[j];
      } else if j > p {
        assert ids2[j] == ids[j - 1];
      }
    }
  }

  lemma InsertedIndexAfter(ids: seq<string>, p: nat, x: string, k: nat)
    requires Distinct(ids) && x !in ids && k < p <= |ids|
    ensures IndexOf(Insert(ids, p, x), ids[k]) == k
  {
    var ids2 := Insert(ids, p, x);
    assert ids2[k] == ids[k];
    forall j | 0 <= j < k ensures ids2[j] != ids[k] {
      assert ids2[j] == ids[j];
    }
  }

  lemma InsertBeforeAnchorAt(w: Watched, p: nat, x: string, j: nat)
    requires WellFormed(w) && |w.videoIds| > 0 && Distinct(w.videoIds) && x !in w.videoIds
    requires p <= AnchorIndex(w)
    ensures ConstructAndResize(Serialize(w), Insert(w.videoIds, p, x)).Success?
    ensures IsWatched(ConstructAndResize(Serialize(w), Insert(w.videoIds, p, x)).value, j)
            == (1 <= j <= |w.videoIds| && IsWatched(w, j - 1))
  {
    var ids, k := w.videoIds, AnchorIndex(w);
    var ids2 := Insert(ids, p, x);
    var payload := Pack(w.bitfield.bytes);
    SerializeParses(w);
    InsertedIndex(ids, p, x, k);
    UnpackPack(w.bitfield.bytes);
    assert ConstructAndResize(Serialize(w), ids2) == Realign(ids[k], k + 1, payload, ids2);
    ShiftedBits(ids[k], k + 1, payload, ids2, w.bitfield.bytes, j);
    if 1 <= j <= |ids| && k < j - 1 {
      assert !IsWatched(w, j - 1);
    }
  }

  /** An episode inserted at or before the anchor moves the anchor up by one,
      and the single-offset realignment then shifts the WHOLE bitfield up by
      one: episodes at or after the insertion point keep their status, while
      those before it take their predecessor's and the first is cleared. */
  lemma InsertBeforeAnchor(w: Watched, p: nat, x: string)
    requires WellFormed(w) && |w.videoIds| > 0 && Distinct(w.videoIds) && x !in w.videoIds
    requires p <= AnchorIndex(w)
    ensures ConstructAndResize(Serialize(w), Insert(w.videoIds, p, x)).Success?
    ensures var r := ConstructAndResize(Serialize(w), Insert(w.videoIds, p, x)).value;
            (forall j: nat :: IsWatched(r, j) == (1 <= j <= |w.videoIds| && IsWatched(w, j - 1)))
            && (forall j: nat :: p <= j < |w.videoIds| ==> IsWatched(r, j + 1) == IsWatched(w, j))
            && !IsWatched(r, 0)
  {
    InsertBeforeAnchorAt(w, p, x, 0);
    forall j: nat ensures IsWatched(ConstructAndResize(Serialize(w), Insert(w.videoIds, p, x)).value, j)
                          == (1 <= j <= |w.videoIds| && IsWatched(w, j - 1)) {
      InsertBeforeAnchorAt(w, p, x, j);
    }
  }

  /** An episode inserted after the anchor leaves the anchor's index alone:
      the stored buffer is reused bit for bit, so episodes before the
      insertion point keep their status. */
  lemma InsertAfterAnchor(w: Watched, p: nat, x: string)
    requires WellFormed(w) && |w.videoIds| > 0 && Distinct(w.videoIds) && x !in w.videoIds
    requires AnchorIndex(w) < p <= |w.videoIds|
    ensures ConstructAndResize(Serialize(w), Insert(w.videoIds, p, x)).Success?
    ensures var r := ConstructAndResize(Serialize(w), Insert(w.videoIds, p, x)).value;
            (forall j: nat :: IsWatched(r, j) == IsWatched(w, j))
            && (forall j: nat :: j < p ==> IsWatched(r, j) == IsWatched(w, j))
  {
    var ids, k := w.videoIds, AnchorIndex(w);
    var ids2 := Insert(ids, p, x);
    SerializeParses(w);
    InsertedIndexAfter(ids, p, x, k);
    UnpackPack(w.bitfield.bytes);
    var r := Realign(ids[k], k + 1, Pack(w.bitfield.bytes), ids2);
    assert r == Success(Watched(FromPacked(w.bitfield.bytes, Some(|ids2|)), ids2));
    forall j: nat ensures IsWatched(r.value, j) == IsWatched(w, j) {
      ZeroExtendAt(w.bitfield.bytes, CeilDiv8(|ids2|), j);
    }
  }
}
