/** The classes BitField8 and WatchedBitfield
    (resources/lib/classes/StremioLibrary.py), whose methods change a byte
    buffer in place. Each method is proved to compute the value-level
    function of module Bits, where the wire-format properties are proved. */
module Bitfield {
  import opened Wrappers
  import opened Seqs
  import opened Packing
  import Bits
  import Text

  /** A bit vector over a mutable byte buffer with a logical bit length. */
  class BitField8 {
    var length: int
    var values: array<byte>

    function View(): Bits.Buffer
      reads this, values
    {
      Bits.Buffer(values[..], length)
    }

    /** `BitField8(n_size)`: `n_size` clear bits in `ceil(n_size / 8)` bytes. */
    constructor (nSize: nat)
      ensures View() == Bits.NewBuffer(nSize)
      ensures fresh(values)
    {
      length := nSize;
      values := new byte[Bits.CeilDiv8(nSize)](_ => 0);
      new;
      Bits.ZerosUnique(values[..]);
    }

    /** `BitField8.from_packed` on the decompressed payload: the payload
        becomes the buffer and is copied into a zeroed buffer when it is
        shorter than the length demands. */
    static method FromPacked(decoded: seq<byte>, length: Option<int>) returns (bf: BitField8)
      ensures bf.View() == Bits.FromPacked(decoded, length)
      ensures fresh(bf) && fresh(bf.values)
    {
      bf := new BitField8(0);
      bf.values := new byte[|decoded|](k requires 0 <= k < |decoded| => decoded[k]);
      bf.length := if length.Some? then length.value else |decoded| * 8;
      var nBytes := Bits.CeilDiv8(bf.length);
      if nBytes > bf.values.Length {
        var newValues := new byte[nBytes](_ => 0);
        var idx := 0;
        while idx < bf.values.Length
          invariant 0 <= idx <= bf.values.Length == |decoded| < newValues.Length == nBytes
          invariant bf.values[..] == decoded && nBytes == Bits.CeilDiv8(bf.length)
          invariant bf.length == if length.Some? then length.value else |decoded| * 8
          invariant newValues[..idx] == decoded[..idx]
          invariant forall k :: idx <= k < nBytes ==> newValues[k] == 0
        {
          newValues[idx] := bf.values[idx];
          idx := idx + 1;
        }
        var tail := newValues[|decoded|..];
        Bits.ZerosUnique(tail);
        assert newValues[..] == decoded + tail;
        assert Bits.ZeroExtend(decoded, nBytes) == decoded + tail;
        bf.values := newValues;
      } else {
        assert bf.values[..] == decoded == Bits.ZeroExtend(decoded, nBytes);
      }
    }

    /** `BitField8.get`: false past the end of the buffer. */
    function Get(i: nat): (r: bool)
      reads this, values
      ensures r == Bits.BitAt(View().bytes, i)
    {
      var index := i / 8;
      if index >= values.Length then false
      else Bits.TestBit(values[index], i % 8)
    }

    /** `BitField8.set`; the byte must exist (IndexError otherwise). */
    method Set(i: nat, v: bool)
      requires i / 8 < values.Length
      modifies values
      ensures values[..] == Bits.WithBit(old(values[..]), i, v)
    {
      var index := i / 8;
      values[index] := Bits.SetBit(values[index], i % 8, v);
    }

    /** `BitField8.last_index_of`: scans down from `length - 1`. */
    method LastIndexOf(v: bool) returns (r: int)
      ensures r == Bits.LastIndex(View().bytes, length, v)
    {
      var i := length - 1;
      while i >= 0
        invariant i < length
        invariant Bits.LastIndex(View().bytes, length, v) == Bits.LastIndex(View().bytes, i + 1, v)
      {
        if Get(i) == v {
          return i;
        }
        i := i - 1;
      }
      return -1;
    }

    /** `BitField8.to_packed` followed by the text encoding: decoding the
        result gives the buffer back. */
    function Packed(): (text: string)
      reads this, values
      ensures Unpack(text) == Some(values[..])
      ensures ':' !in text
    {
      UnpackPack(values[..]);
      Pack(values[..])
    }
  }

  /** A BitField8 paired with the ordered episode ids it describes. */
  class WatchedBitfield {
    const bitfield: BitField8
    const videoIds: seq<string>

    function View(): Bits.Watched
      reads this, bitfield, bitfield.values
    {
      Bits.Watched(bitfield.View(), videoIds)
    }

    predicate Valid()
      reads this, bitfield, bitfield.values
    {
      Bits.WellFormed(View())
    }

    constructor (bitfield: BitField8, videoIds: seq<string>)
      ensures this.bitfield == bitfield && this.videoIds == videoIds
    {
      this.bitfield := bitfield;
      this.videoIds := videoIds;
    }

    /** `WatchedBitfield.construct_from_array`: the flags of `arr`, in order,
        written into `BitField8(len(ids))`. */
    static method ConstructFromArray(arr: seq<bool>, ids: seq<string>) returns (w: WatchedBitfield)
      requires |arr| <= 8 * Bits.CeilDiv8(|ids|)
      ensures w.View() == Bits.Watched(Bits.Buffer(Bits.FromArray(arr, |ids|, |arr|), |ids|), ids)
      ensures w.Valid()
      ensures fresh(w) && fresh(w.bitfield) && fresh(w.bitfield.values)
    {
      var bf := new BitField8(|ids|);
      for i := 0 to |arr|
        invariant fresh(bf) && fresh(bf.values)
        invariant bf.length == |ids|
        invariant bf.values[..] == Bits.FromArray(arr, |ids|, i)
      {
        SetFlag(bf, arr, |ids|, i);
      }
      w := new WatchedBitfield(bf, ids);
    }

    /** One step of the loop of `construct_from_array`: flag `i` goes into
        bit `i`. */
    static method SetFlag(bf: BitField8, arr: seq<bool>, n: nat, i: nat)
      requires i < |arr| <= 8 * Bits.CeilDiv8(n)
      requires bf.values[..] == Bits.FromArray(arr, n, i)
      modifies bf.values
      ensures bf.values[..] == Bits.FromArray(arr, n, i + 1)
    {
      bf.Set(i, arr[i]);
    }

    /** `WatchedBitfield.construct_and_resize`: parse the wire string, look
        the anchor up in `ids` and copy the stored bits shifted by the
        anchor's offset (or reuse the buffer when the offset is zero). */
    static method ConstructAndResize(serialized: string, ids: seq<string>) returns (r: Result<WatchedBitfield>)
      ensures Bits.ConstructAndResize(serialized, ids).Failure? ==>
                r == Failure(Bits.ConstructAndResize(serialized, ids).error)
      ensures Bits.ConstructAndResize(serialized, ids).Success? ==>
                r.Success? && r.value.View() == Bits.ConstructAndResize(serialized, ids).value
                && fresh(r.value) && fresh(r.value.bitfield) && fresh(r.value.bitfield.values)
    {
      var parsed := Bits.ParseWire(serialized);
      if parsed.Failure? {
        return Failure(parsed.error);
      }
      var (anchorId, anchorLength, payload) := parsed.value;
      var anchorIdx := IndexOf(ids, anchorId);
      var offset := (anchorLength - 1) - anchorIdx;
      if anchorIdx == -1 || offset != 0 {
        if anchorIdx == -1 {
          var empty := new BitField8(|ids|);
          var w := new WatchedBitfield(empty, ids);
          return Success(w);
        }
        var decoded := Unpack(payload);
        if decoded.None? {
          return Failure(DecodeError);
        }
        var prev := BitField8.FromPacked(decoded.value, Some(anchorLength));
        var resized := Resize(prev, offset, |ids|);
        var w := new WatchedBitfield(resized, ids);
        return Success(w);
      }
      var decoded := Unpack(payload);
      if decoded.None? {
        return Failure(DecodeError);
      }
      var buf := BitField8.FromPacked(decoded.value, Some(|ids|));
      var w := new WatchedBitfield(buf, ids);
      return Success(w);
    }

    /** The copy loop of `construct_and_resize`: bit `i` of a fresh
        `BitField8(n)` takes bit `i + offset` of `prev` where that exists. */
    static method Resize(prev: BitField8, offset: int, n: nat) returns (resized: BitField8)
      ensures resized.View() == Bits.Buffer(Bits.Shifted(prev.View(), offset, n, n), n)
      ensures fresh(resized) && fresh(resized.values)
    {
      resized := new BitField8(n);
      for i := 0 to n
        invariant fresh(resized) && fresh(resized.values)
        invariant resized.length == n && resized.values.Length == Bits.CeilDiv8(n)
        invariant resized.values[..] == Bits.Shifted(prev.View(), offset, n, i)
      {
        CopyFrom(resized, prev, offset, i);
      }
    }

    /** One step of the copy loop: bit `i` of `resized` takes bit
        `i + offset` of `prev` when that index is inside `prev`. */
    static method CopyFrom(resized: BitField8, prev: BitField8, offset: int, i: nat)
      requires i / 8 < resized.values.Length && resized.values != prev.values
      modifies resized.values
      ensures resized.values[..] == Bits.CopyBit(old(resized.values[..]), prev.View(), offset, i)
    {
      var idxInPrev := i + offset;
      if 0 <= idxInPrev < prev.length {
        resized.Set(i, prev.Get(idxInPrev));
      }
    }

    function Get(idx: nat): (r: bool)
      reads this, bitfield, bitfield.values
      ensures r == Bits.IsWatched(View(), idx)
    {
      bitfield.Get(idx)
    }

    method Set(idx: nat, v: bool)
      requires idx / 8 < bitfield.values.Length
      modifies bitfield.values
      ensures View() == Bits.Watched(Bits.Buffer(Bits.WithBit(old(bitfield.values[..]), idx, v), bitfield.length), videoIds)
    {
      bitfield.Set(idx, v);
    }

    /** `WatchedBitfield.set_video`: an unknown id changes nothing. */
    method SetVideo(videoId: string, v: bool)
      requires Valid()
      modifies bitfield.values
      ensures Valid()
      ensures videoId in videoIds ==>
                bitfield.values[..] == Bits.WithBit(old(bitfield.values[..]), IndexOf(videoIds, videoId), v)
      ensures videoId !in videoIds ==> bitfield.values[..] == old(bitfield.values[..])
      ensures videoId in videoIds ==> GetVideo(videoId) == v
    {
      if videoId in videoIds {
        var idx := IndexOf(videoIds, videoId);
        bitfield.Set(idx, v);
      }
    }

    /** `WatchedBitfield.get_video`: an unknown id reads as unwatched. */
    function GetVideo(videoId: string): (r: bool)
      reads this, bitfield, bitfield.values
      ensures r <==> videoId in videoIds && Bits.IsWatched(View(), IndexOf(videoIds, videoId))
    {
      if videoId in videoIds then bitfield.Get(IndexOf(videoIds, videoId)) else false
    }

    /** `WatchedBitfield.serialize`; `video_ids[0]` must exist. */
    method Serialize() returns (s: string)
      requires Valid() && |videoIds| > 0
      ensures s == Bits.Serialize(View())
    {
      var packedStr := bitfield.Packed();
      var last := bitfield.LastIndexOf(true);
      var lastIdx := if last > 0 then last else 0;
      s := videoIds[lastIdx] + ":" + Text.NatToString(lastIdx + 1) + ":" + packedStr;
    }
  }
}
