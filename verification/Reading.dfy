/**
 The buffered reader over a fill function that may return fewer bytes than asked
 for, and discarding an object with the reader's own decoder of headers. What is
 left to read is the rest of the buffer followed by the rest of the stream.
 */
module Reading {
  import opened MsgPack

  const MINIMUM_BUFFER: nat := 32
  const SMALL_FRACTION: nat := 32

  /** The error that a lack of bytes raises. */
  function Shortage(filling: bool): Error {
    if filling then Io else Invalid
  }

  /** The error for what is found in place of a header. */
  function TagError(h: Header, filling: bool): Error {
    match h
    case Header(_, _) => Ok
    case Short => Shortage(filling)
    case ReservedByte => Invalid
    case ExtByte => Unsupported
  }

  /** The error for what is wrong with objects. */
  function ErrorFor(w: Defect, filling: bool): Error {
    match w
    case NoDefect => Ok
    case Truncated => Shortage(filling)
    case Reserved => Invalid
    case Extension => Unsupported
  }

  // ---- the reader's own decoder of headers

  datatype Case = Whole(tag: Tag) | Sized(size: nat) | ReservedCase | ExtCase

  /** The switch over the type byte. */
  function CaseOf(b: byte): (c: Case)
    ensures c.Sized? ==> 2 <= c.size <= 9
  {
    if b <= 0x7f then Whole(UIntTag(b))
    else if b >= 0xe0 then Whole(IntTag(b - 0x100))
    else if b <= 0x8f then Whole(MapTag(b % 0x10))
    else if b <= 0x9f then Whole(ArrayTag(b % 0x10))
    else if b <= 0xbf then Whole(StrTag(b % 0x20))
    else if b == 0xc0 then Whole(NilTag)
    else if b == 0xc1 then ReservedCase
    else if b <= 0xc3 then Whole(BoolTag(b % 2 == 1))
    else if b in {0xc4, 0xcc, 0xd0, 0xd9} then Sized(2)
    else if b in {0xc5, 0xcd, 0xd1, 0xda, 0xdc, 0xde} then Sized(3)
    else if b in {0xc6, 0xca, 0xce, 0xd2, 0xdb, 0xdd, 0xdf} then Sized(5)
    else if b in {0xcb, 0xcf, 0xd3} then Sized(9)
    else ExtCase
  }

  /** The tag made of the bytes `d` of a sized header. */
  function TagIn(d: seq<byte>): Tag
    requires |d| > 0 && CaseOf(d[0]).Sized? && |d| == CaseOf(d[0]).size
  {
    var b, n := d[0], Load(d, 1, |d| - 1);
    if b <= 0xc6 then BinTag(n)
    else if b == 0xca then FloatTag(n)
    else if b == 0xcb then DoubleTag(n)
    else if b <= 0xcf then UIntTag(n)
    else if b <= 0xd3 then IntTag(Signed(n, |d| - 1))
    else if b <= 0xdb then StrTag(n)
    else if b <= 0xdd then ArrayTag(n)
    else MapTag(n)
  }

  /** The reader's decoder of headers and the reference agree on every type byte. */
  lemma {:induction false} CasesAgree(d: seq<byte>)
    requires |d| > 0
    ensures match CaseOf(d[0])
            case Whole(t) => HeaderAt(d, 0) == Header(t, 1)
            case Sized(n) =>
              if n <= |d| then CaseOf(d[..n][0]).Sized? && HeaderAt(d, 0) == Header(TagIn(d[..n]), n)
              else HeaderAt(d, 0) == Short
            case ReservedCase => HeaderAt(d, 0) == ReservedByte
            case ExtCase => HeaderAt(d, 0) == ExtByte
  {
    if CaseOf(d[0]).Sized? {
      var n := CaseOf(d[0]).size;
      if n <= |d| { LoadExtends(d[..n], d, 1, n - 1); }
    }
  }

  class Reader {
    const filling: bool         // there is a fill function
    const skipping: bool        // there is a skip function
    const size: nat             // of the writable buffer
    var error: Error
    var buffer: array<byte>     // what `data` and `end` point into
    var data: nat
    var end: nat
    var stream: seq<byte>       // what the fill function has yet to return
    var script: seq<nat>        // how many bytes its next calls return at most

    ghost predicate Valid(): (v: bool)
      reads this
      ensures v ==> data <= end <= buffer.Length
    {
      && data <= end <= buffer.Length && (error != Ok ==> data == end)
      && if filling then size == buffer.Length >= MINIMUM_BUFFER else stream == []
    }

    ghost function Remaining(): seq<byte>
      reads this, buffer
      requires data <= end <= buffer.Length
    {
      buffer[data..end] + stream
    }

    /** `mpack_reader_init_data`. */
    constructor Data(bytes: array<byte>)
      ensures Valid() && error == Ok && !filling && !skipping && size == 0
      ensures buffer == bytes && Remaining() == bytes[..]
    {
      filling, skipping, size, error := false, false, 0, Ok;
      buffer, data, end := bytes, 0, bytes.Length;
      stream, script := [], [];
    }

    /** `mpack_reader_init` and `mpack_reader_set_fill`: a buffer that is too small is a bug. */
    constructor Filled(buffer: array<byte>, count: nat, stream: seq<byte>, script: seq<nat>, skipping: bool)
      requires count <= buffer.Length
      ensures Valid() && this.buffer == buffer && filling == (buffer.Length >= 32)
                && this.skipping == skipping
      ensures if filling
              then error == Ok && Remaining() == buffer[..count] + stream && this.script == script
              else error == Bug
    {
      var fits := buffer.Length >= MINIMUM_BUFFER;
      filling, this.skipping, size, error := fits, skipping, buffer.Length, if fits then Ok else Bug;
      this.buffer, data, end := buffer, 0, if fits then count else 0;
      this.stream, this.script := if fits then stream else [], script;
    }

    method FlagError(e: Error)
      requires Valid() && e != Ok
      modifies this`error, this`end
      ensures Valid() && error == if old(error) == Ok then e else old(error)
      ensures end == if old(error) == Ok then data else old(end)
    {
      if error == Ok {
        error := e;
        end := data;
      }
    }

    /** The fill function: between one and `most` bytes while there are any. */
    method Fill(p: array<byte>, at: nat, most: nat) returns (read: nat)
      requires most > 0 && at + most <= p.Length
      modifies this`stream, this`script, p
      ensures read <= most && read <= |old(stream)| && (read == 0 <==> old(stream) == [])
      ensures stream == old(stream)[read..] && p[at..at + read] == old(stream)[..read]
      ensures p[..at] == old(p[..at]) && p[at + read..] == old(p[at + read..])
    {
      var n := if script == [] || script[0] > most then most else if script[0] == 0 then 1 else script[0];
      if script != [] { script := script[1..]; }
      read := if n > |stream| then |stream| else n;
      Overwrite(p, at, stream[..read]);
      stream := stream[read..];
    }

    method Overwrite(p: array<byte>, at: nat, b: seq<byte>)
      requires at + |b| <= p.Length
      modifies p
      ensures p[at..at + |b|] == b && p[..at] == old(p[..at]) && p[at + |b|..] == old(p[at + |b|..])
    {
      ghost var front, tail := p[..at], p[at + |b|..];
      forall i | 0 <= i < |b| { p[at + i] := b[i]; }
      assert p[at..at + |b|] == b;
      assert p[..at] == front;
      assert p[at + |b|..] == tail;
    }

    /** `mpack_fill_range`. */
    method FillRange(p: array<byte>, at: nat, least: nat, most: nat) returns (count: nat)
      requires Valid() && filling && error == Ok && 0 < least <= most && at + most <= p.Length
      modifies this`stream, this`script, this`error, this`end, p
      ensures Valid() && p[..at] == old(p[..at]) && |stream| <= |old(stream)|
      ensures if least <= |old(stream)| then
                && error == Ok && end == old(end) && least <= count <= most && count <= |old(stream)|
                && stream == old(stream)[count..] && p[at..at + count] == old(stream)[..count]
                && p[at + count..] == old(p[at + count..])
              else error == Io && end == data && count == 0 && p[at + most..] == old(p[at + most..])
    {
      count := 0;
      while count < least
        invariant Valid() && error == Ok && end == old(end)
        invariant count <= most && count <= |old(stream)| && stream == old(stream)[count..]
        invariant p[at..at + count] == old(stream)[..count]
        invariant p[..at] == old(p[..at]) && p[at + count..] == old(p[at + count..])
        decreases least - count
      {
        label Before:
        var read := Fill(p, at + count, most - count);
        if read == 0 {
          FlagError(Io);
          assert p[at + count..][most - count..] == p[at + most..];
          assert old(p[at + count..])[most - count..] == old(p[at + most..]);
          return 0;
        }
        Joined(old@Before(p[..]), p[..], at, count, read);
        assert old(stream)[..count + read] == old(stream)[..count] + old(stream)[count..][..read];
        assert old(p[at + count..])[read..] == old(p[at + count + read..]);
        count := count + read;
      }
    }

    /** `mpack_reader_ensure`: makes `count` bytes available in the buffer, without consuming any. */
    method Ensure(count: nat) returns (ok: bool)
      requires Valid() && error == Ok && count > 0
      modifies this, buffer
      ensures Valid() && buffer == old(buffer) && |Remaining()| <= |old(Remaining())|
      ensures ok <==> count <= |old(Remaining())| && (count <= old(end - data) || count <= size)
      ensures ok ==> error == Ok && Remaining() == old(Remaining()) && count <= end - data
      ensures !ok ==> error == if !filling then Invalid else if count > size then TooBig else Io
    {
      if count <= end - data { return true; }
      ok := EnsureStraddle(count);
    }

    /** `mpack_reader_ensure_straddle`. */
    method EnsureStraddle(count: nat) returns (ok: bool)
      requires Valid() && error == Ok && count > end - data
      modifies this, buffer
      ensures Valid() && buffer == old(buffer) && |Remaining()| <= |old(Remaining())|
      ensures ok <==> count <= |old(Remaining())| && count <= size
      ensures ok ==> error == Ok && Remaining() == old(Remaining()) && count <= end - data
      ensures !ok ==> error == if filling && count > size then TooBig else Shortage(filling)
    {
      if !filling {
        FlagError(Invalid);
        return false;
      }
      if count > size {
        FlagError(TooBig);
        return false;
      }
      var left := MoveToFront();
      ghost var kept := buffer[..left];
      var read := FillRange(buffer, left, count - left, size - left);
      if error != Ok { return false; }
      end := end + read;
      TakenTogether(buffer[..left + read], kept, old(stream), read);
      assert buffer[..left + read][..left] == kept && buffer[..left + read][left..] == buffer[left..left + read];
      return true;
    }

    /** The memmove of what is left to the start of the buffer. */
    method MoveToFront() returns (left: nat)
      requires Valid()
      modifies this`data, this`end, buffer
      ensures Valid() && data == 0 && left == end == old(end - data) && buffer[..left] == old(buffer[data..end])
    {
      left := end - data;
      forall i | 0 <= i < left { buffer[i] := buffer[data + i]; }
      data, end := 0, left;
    }

    /** memcpy out of the buffer. */
    method CopyTo(p: array<byte>, at: nat, count: nat)
      requires data + count <= buffer.Length && at + count <= p.Length && p != buffer
      modifies p
      ensures p[at..at + count] == buffer[data..data + count]
      ensures p[..at] == old(p[..at]) && p[at + count..] == old(p[at + count..])
    {
      Overwrite(p, at, buffer[data..data + count]);
    }

    /** `mpack_read_native`: copies the next `count` bytes to `p`. */
    method ReadNative(p: array<byte>, at: nat, count: nat)
      requires Valid() && p != buffer && at + count <= p.Length
      modifies this, buffer, p
      ensures Valid() && buffer == old(buffer) && (old(error) != Ok ==> error == old(error))
      ensures old(error) == Ok ==> Took(old(Remaining()), count, p[at..at + count])
      ensures old(error) == Ok && |old(Remaining())| < count ==> error == if filling then Io else Invalid
      ensures count > 0 && (old(error) != Ok || (error != Ok && !filling)) ==> p[at..at + count] == Zeros(count)
      ensures p[..at] == old(p[..at]) && p[at + count..] == old(p[at + count..])
    {
      if count > end - data {
        ReadStraddling(p, at, count);
      } else {
        CopyTo(p, at, count);
        data := data + count;
        if old(error) == Ok { TakenFromBuffer(buffer[old(data)..end], stream, count); }
      }
    }

    /** The next `count` bytes were taken, or there are not as many. */
    ghost predicate Took(was: seq<byte>, count: nat, bytes: seq<byte>)
      reads this, buffer
      requires data <= end <= buffer.Length
    {
      if count <= |was| then error == Ok && bytes == was[..count] && Remaining() == was[count..]
      else error == Shortage(filling)
    }

    /** `mpack_read_native_straddle`. */
    method ReadStraddling(p: array<byte>, at: nat, count: nat)
      requires Valid() && p != buffer && at + count <= p.Length && count > end - data
      modifies this, buffer, p
      ensures Valid() && buffer == old(buffer) && (old(error) != Ok ==> error == old(error))
      ensures old(error) == Ok ==> Took(old(Remaining()), count, p[at..at + count])
      ensures old(error) != Ok || !filling ==> p[at..at + count] == Zeros(count)
      ensures p[..at] == old(p[..at]) && p[at + count..] == old(p[at + count..])
    {
      if error != Ok {
        Clear(p, at, count);
        return;
      }
      if !filling {
        FlagError(Invalid);
        Clear(p, at, count);
        return;
      }
      var left := end - data;
      ghost var had, tail := buffer[data..end], p[at + count..];
      CopyTo(p, at, left);
      data := data + left;
      assert p[at + left..][count - left..] == tail;
      ReadRest(p, at + left, count - left, had);
      assert p[..at + left][..at] == p[..at];
    }

    /** The rest of a read, `had` being what was copied already. */
    method ReadRest(p: array<byte>, at: nat, rest: nat, ghost had: seq<byte>)
      requires Valid() && filling && error == Ok && data == end && p != buffer && rest > 0
      requires |had| <= at && at + rest <= p.Length && p[at - |had|..at] == had
      modifies this, buffer, p
      ensures Valid() && buffer == old(buffer)
      ensures Took(had + old(stream), |had| + rest, p[at - |had|..at + rest])
      ensures p[..at] == old(p[..at]) && p[at + rest..] == old(p[at + rest..])
    {
      if rest <= size / SMALL_FRACTION {
        ReadThroughBuffer(p, at, rest, had);
      } else {
        ghost var was := p[..];
        var read := FillRange(p, at, rest, rest);
        if error == Ok {
          assert p[..at] == was[..at];
          Joined(was, p[..], at - |had|, |had|, rest);
          assert was[at - |had|..at] == had;
          Straddled(p[..], at - |had|, |had|, rest, had, old(stream));
          assert buffer[data..end] == [];
        }
      }
    }

    /** A small rest is read by filling the whole buffer. */
    method ReadThroughBuffer(p: array<byte>, at: nat, rest: nat, ghost had: seq<byte>)
      requires Valid() && filling && error == Ok && data == end && p != buffer && 0 < rest <= size / SMALL_FRACTION
      requires |had| <= at && at + rest <= p.Length && p[at - |had|..at] == had
      modifies this, buffer, p
      ensures Valid() && buffer == old(buffer)
      ensures Took(had + old(stream), |had| + rest, p[at - |had|..at + rest])
      ensures p[..at] == old(p[..at]) && p[at + rest..] == old(p[at + rest..])
    {
      var read := FillRange(buffer, 0, rest, size);
      if error != Ok { return; }
      ghost var was := p[..];
      data, end := 0, read;
      CopyTo(p, at, rest);
      data := rest;
      assert buffer[0..read] == buffer[..rest] + buffer[rest..read];
      assert p[at..at + rest] == buffer[..rest] == old(stream)[..rest];
      assert p[..at] == was[..at];
      Joined(was, p[..], at - |had|, |had|, rest);
      assert was[at - |had|..at] == had;
      assert buffer[rest..read] == old(stream)[..read][rest..];
      assert (had + old(stream))[|had| + rest..] == old(stream)[rest..]
          == old(stream)[..read][rest..] + old(stream)[read..];
    }

    method Clear(p: array<byte>, at: nat, count: nat)
      requires at + count <= p.Length
      modifies p
      ensures p[at..at + count] == Zeros(count)
      ensures p[..at] == old(p[..at]) && p[at + count..] == old(p[at + count..])
    {
      Overwrite(p, at, Zeros(count));
    }

    // ---- skipping

    /** The next `count` bytes were dropped, or there are not as many. */
    ghost predicate Dropped(was: seq<byte>, count: nat)
      reads this, buffer
      requires data <= end <= buffer.Length
    {
      if count <= |was| then error == Ok && Remaining() == was[count..] else error == Shortage(filling)
    }

    /** `mpack_skip_bytes`. */
    method SkipBytes(count: nat)
      requires Valid()
      modifies this, buffer
      ensures Valid() && buffer == old(buffer) && |Remaining()| <= |old(Remaining())|
      ensures if old(error) == Ok then Dropped(old(Remaining()), count) else error == old(error)
      ensures old(error) == Ok && |old(Remaining())| < count ==> error == if filling then Io else Invalid
    {
      if error != Ok { return; }
      var left := end - data;
      if left >= count {
        data := data + count;
        TakenFromBuffer(buffer[old(data)..end], stream, count);
        return;
      }
      SkipStraddling(count);
    }

    /** `mpack_skip_bytes_straddle`. */
    method SkipStraddling(count: nat)
      requires Valid() && error == Ok && count > end - data
      modifies this, buffer
      ensures Valid() && buffer == old(buffer) && |Remaining()| <= |old(Remaining())|
                && Dropped(old(Remaining()), count)
    {
      if !filling {
        FlagError(Invalid);
        return;
      }
      var rest := count - (end - data);
      data := end;
      assert rest <= |stream| ==> old(Remaining())[count..] == stream[rest..];
      if skipping && rest > size / 16 {
        Skip(rest);
      } else {
        SkipUsingFill(rest);
      }
    }

    /** The skip function. */
    method Skip(count: nat)
      requires Valid() && filling && skipping && error == Ok && data == end
      modifies this`stream, this`error, this`end
      ensures Valid() && |stream| <= |old(stream)| && Dropped(old(stream), count)
    {
      if count <= |stream| { stream := stream[count..]; } else { FlagError(Io); }
      assert buffer[data..end] == [];
    }

    /** `mpack_reader_skip_using_fill`. */
    method SkipUsingFill(count: nat)
      requires Valid() && filling && error == Ok && data == end && count > 0
      modifies this, buffer
      ensures Valid() && buffer == old(buffer) && |Remaining()| <= |old(stream)| && Dropped(old(stream), count)
    {
      var rest := count;
      while rest > size
        invariant Valid() && error == Ok && data == end && buffer == old(buffer)
        invariant 0 < rest <= count && count - rest <= |old(stream)| && stream == old(stream)[count - rest..]
      {
        var read := FillRange(buffer, 0, size, size);
        if error != Ok { return; }
        rest := rest - size;
      }
      if count <= |old(stream)| { assert old(stream)[count - rest..][rest..] == old(stream)[count..]; }
      FillAndDiscard(rest);
    }

    /** The end of skipping: the buffer is filled as much as possible. */
    method FillAndDiscard(count: nat)
      requires Valid() && filling && error == Ok && data == end && 0 < count <= size
      modifies this, buffer
      ensures Valid() && buffer == old(buffer) && |Remaining()| <= |old(stream)| && Dropped(old(stream), count)
    {
      data := 0;
      var read := FillRange(buffer, 0, count, size);
      if error != Ok { return; }
      end := data + read;
      data := data + count;
      assert buffer[..read] == buffer[0..read];
      SlicesJoin(buffer[..read], old(stream), count, read);
    }

    // ---- tags, and discarding an object

    /** `mpack_parse_tag`; size zero reports a failure. */
    method ParseTag() returns (size: nat, tag: Tag)
      requires Valid() && error == Ok
      modifies this, buffer
      ensures Valid() && buffer == old(buffer) && |Remaining()| <= |old(Remaining())|
      ensures match HeaderAt(old(Remaining()), 0)
              case Header(t, n) => error == Ok && Remaining() == old(Remaining()) && size == n <= end - data && tag == t
              case Short => size == 0 && error == Shortage(filling)
              case ReservedByte => size == 0 && error == Invalid
              case ExtByte => size == 0 && error == Unsupported
    {
      hide HeaderAt, CaseOf, TagIn;
      tag := NilTag;
      var ok := Ensure(1);
      NothingShort(old(Remaining()));
      if !ok { return 0, tag; }
      var b := buffer[data];
      ghost var d := Remaining();
      FrontOf(buffer[data..end], stream, 1);
      CasesAgree(d);
      match CaseOf(b)
      case Whole(t) => return 1, t;
      case Sized(n) =>
        ok := EnsureSized(n);
        if !ok { return 0, tag; }
        FrontOf(buffer[data..end], stream, n);
        return n, TagIn(buffer[data..end][..n]);
      case ReservedCase =>
        FlagError(Invalid);
        return 0, tag;
      case ExtCase =>
        FlagError(Unsupported);
        return 0, tag;
    }

    /** Room for a header, which any buffer for a stream has. */
    method EnsureSized(n: nat) returns (ok: bool)
      requires Valid() && error == Ok && 0 < n <= 9
      modifies this, buffer
      ensures Valid() && buffer == old(buffer) && |Remaining()| <= |old(Remaining())|
      ensures ok <==> n <= |old(Remaining())|
      ensures ok ==> error == Ok && Remaining() == old(Remaining()) && n <= end - data
      ensures !ok ==> error == Shortage(filling)
    {
      ok := Ensure(n);
    }

    /** `mpack_read_tag`. */
    method ReadTag() returns (tag: Tag)
      requires Valid()
      modifies this, buffer
      ensures Valid() && buffer == old(buffer) && |Remaining()| <= |old(Remaining())|
      ensures old(error) != Ok ==> error == old(error)
      ensures old(error) == Ok ==>
                var h := HeaderAt(old(Remaining()), 0);
                && error == TagError(h, filling) && (error == Ok <==> h.Header?)
                && (h.Header? ==> tag == h.tag && Remaining() == old(Remaining())[h.size..])
    {
      hide HeaderAt;
      if error != Ok { return NilTag; }
      var size, t := ParseTag();
      if size == 0 { return NilTag; }
      data := data + size;
      TakenFromBuffer(buffer[data - size..end], stream, size);
      return t;
    }

    /**
     * `mpack_discard`: succeeds exactly if a complete object starts here, and then has advanced by its length, the
     * length that the tree parser reports.
     */
    method Discard()
      requires Valid()
      modifies this, buffer
      ensures Valid() && buffer == old(buffer) && |Remaining()| <= |old(Remaining())|
      ensures old(error) != Ok ==> error == old(error)
      ensures old(error) == Ok ==>
                var was := old(Remaining());
                var r := Decode(was, 0, 1);
                && (error == Ok <==> r.Done?) && (r.Done? ==> r.next <= |was| && Remaining() == was[r.next..])
                && error == ErrorFor(DefectOf(was, 0, 1), filling)
      decreases |Remaining()|, 0
    {
      hide Decode, DefectOf, HeaderAt, ItemAt, ErrorFor, TagError, Shortage;
      ghost var d := Remaining();
      var tag := ReadTag();
      if error != Ok {
        if old(error) == Ok { NoObject(d, filling); }
        return;
      }
      DiscardRest(tag, d);
    }

    /** What follows the tag of an object whose bytes start with `d`. */
    method DiscardRest(tag: Tag, ghost d: seq<byte>)
      requires Valid() && error == Ok
      requires var h := HeaderAt(d, 0); h.Header? && h.tag == tag && Remaining() == d[h.size..]
      modifies this, buffer
      ensures Valid() && buffer == old(buffer) && |Remaining()| <= |old(Remaining())| && Discarded(d, 1)
      decreases |Remaining()|, 4
    {
      hide HeaderAt, Discarded;
      match tag
      case StrTag(n) => DiscardRaw(n, d);
      case BinTag(n) => DiscardRaw(n, d);
      case ArrayTag(n) => DiscardItems(n, 1, d);
      case MapTag(n) => DiscardItems(n, 2, d);
      case _ => ScalarDiscarded(d);
    }

    lemma {:induction false} ScalarDiscarded(d: seq<byte>)
      requires Valid() && error == Ok
      requires var h := HeaderAt(d, 0);
               h.Header? && Payload(h.tag) == Children(h.tag) == 0 && Remaining() == d[h.size..]
      ensures Discarded(d, 1)
    {
      hide Decode, DefectOf, HeaderAt, ItemAt, ErrorFor, Shortage;
      RawObject(d, filling);
    }

    /** The raw bytes behind a tag. */
    method DiscardRaw(n: nat, ghost d: seq<byte>)
      requires Valid() && error == Ok
      requires var h := HeaderAt(d, 0);
               h.Header? && Payload(h.tag) == n && Children(h.tag) == 0 && Remaining() == d[h.size..]
      modifies this, buffer
      ensures Valid() && buffer == old(buffer) && |Remaining()| <= |old(Remaining())| && Discarded(d, 1)
    {
      hide Decode, DefectOf, HeaderAt, ItemAt, ErrorFor, Shortage;
      SkipBytes(n);
      RawObject(d, filling);
    }

    /** The objects in a container. */
    method DiscardItems(n: nat, k: nat, ghost d: seq<byte>)
      requires Valid() && error == Ok && 1 <= k <= 2
      requires var h := HeaderAt(d, 0);
               h.Header? && Payload(h.tag) == 0 && Children(h.tag) == n * k && Remaining() == d[h.size..]
      modifies this, buffer
      ensures Valid() && buffer == old(buffer) && |Remaining()| <= |old(Remaining())| && Discarded(d, 1)
      decreases |Remaining()|, 3
    {
      hide Decode, DefectOf, HeaderAt, ItemAt, ErrorFor;
      DiscardMany(n, k);
      NestedObject(d);
    }

    /** The loops over the elements of an array (`k` is 1) or the keys and values of a map (2). */
    method DiscardMany(n: nat, k: nat)
      requires Valid() && error == Ok && 1 <= k <= 2
      modifies this, buffer
      ensures Valid() && buffer == old(buffer) && |Remaining()| <= |old(Remaining())|
      ensures Discarded(old(Remaining()), n * k)
      decreases |Remaining()|, 2
    {
      hide Decode, DefectOf;
      ghost var d := Remaining();
      var left := n;
      NothingDiscarded(d);
      while left > 0
        invariant 0 <= left <= n && Valid() && buffer == old(buffer) && |Remaining()| <= |d|
        invariant error == Ok && Discarded(d, (n - left) * k)
        decreases left
      {
        ghost var c := (n - left) * k;
        DiscardNext(d, c);
        if k == 2 { DiscardNext(d, c + 1); }
        if error != Ok {
          assert (n - left + 1) * k <= n * k;
          FailsOn(d, (n - left + 1) * k, n * k);
          return;
        }
        left := left - 1;
      }
    }

    /** One more object behind `c` of them. */
    method DiscardNext(ghost d: seq<byte>, ghost c: nat)
      requires Valid() && Discarded(d, c) && |Remaining()| <= |d|
      modifies this, buffer
      ensures Valid() && buffer == old(buffer) && |Remaining()| <= |old(Remaining())| && Discarded(d, c + 1)
      decreases |Remaining()|, 1
    {
      hide Decode, DefectOf;
      if error == Ok { OneBehind(d, c); } else { FailsOn(d, c, c + 1); }
      Discard();
    }

    /** `c` objects were there and are gone, or there is the error for what is wrong with them. */
    ghost predicate Discarded(was: seq<byte>, c: nat)
      reads this, buffer
      requires data <= end <= buffer.Length
    {
      var r := Decode(was, 0, c);
      && error == ErrorFor(DefectOf(was, 0, c), filling)
      && (r.Done? <==> error == Ok)
      && (r.Done? ==> r.next <= |was| && Remaining() == was[r.next..])
    }

    // ---- runs of reads, skips and ensures

    /**
     * Any run of reads, skips and ensures: whatever the size of the buffer and however few bytes each fill returns,
     * what is delivered are the bytes of the stream in order. The run fails at the first operation for which there are
     * too few bytes, or that wants more of them at once than the buffer can hold, with the error for that.
     */
    method Consume(ops: seq<Op>) returns (out: seq<byte>)
      requires Valid() && error == Ok && forall op <- ops :: op.Ensure? ==> op.n > 0
      modifies this, buffer
      ensures Valid() && buffer == old(buffer)
      ensures var was := old(Remaining());
              && error == Verdict(was, ops, size, filling)
              && (error == Ok ==> out == Picked(was, ops) && Remaining() == was[Total(ops)..])
    {
      hide Total, Picked, Valid, Verdict;
      out := [];
      ghost var was := Remaining();
      NothingPicked(was, size, filling);
      for i := 0 to |ops|
        invariant Valid() && buffer == old(buffer) && error == Verdict(was, ops[..i], size, filling)
        invariant error == Ok ==>
                    Total(ops[..i]) <= |was| && out == Picked(was, ops[..i]) && Remaining() == was[Total(ops[..i])..]
      {
        OneMoreOp(was, ops, i, size, filling);
        var bytes := Perform(ops[i]);
        out := out + bytes;
      }
      assert ops[..|ops|] == ops;
    }

    /** A read into a buffer of its own. */
    method ReadNew(n: nat) returns (bytes: seq<byte>)
      requires Valid()
      modifies this, buffer
      ensures Valid() && buffer == old(buffer) && (old(error) != Ok ==> error == old(error))
      ensures old(error) == Ok ==> Took(old(Remaining()), n, bytes)
    {
      hide Took;
      var p := new byte[n];
      ReadNative(p, 0, n);
      bytes := p[..];
      assert bytes == p[0..0 + n];
    }

    method Perform(op: Op) returns (bytes: seq<byte>)
      requires Valid() && (op.Ensure? ==> op.n > 0)
      modifies this, buffer
      ensures Valid() && buffer == old(buffer) && (old(error) != Ok ==> error == old(error))
      ensures old(error) == Ok ==> error == Ruling(|old(Remaining())|, op, size, filling)
      ensures old(error) == error == Ok ==>
                && Remaining() == old(Remaining())[if op.Ensure? then 0 else op.n..]
                && bytes == if op.Read? then old(Remaining())[..op.n] else []
    {
      bytes := [];
      match op
      case Read(n) => bytes := ReadNew(n);
      case Skip(n) => SkipBytes(n);
      case Ensure(n) =>
        if error == Ok {
          var ok := Ensure(n);
        }
    }
  }

  datatype Op = Read(n: nat) | Skip(n: nat) | Ensure(n: nat)

  /** Bytes that a run moves past. */
  function Total(ops: seq<Op>): nat {
    if ops == [] then 0 else
    Total(ops[..|ops| - 1]) + if ops[|ops| - 1].Ensure? then 0 else ops[|ops| - 1].n
  }

  /** What becomes of an operation when there are `left` bytes. */
  function Ruling(left: nat, op: Op, size: nat, filling: bool): Error {
    if op.Ensure? && filling && op.n > size then TooBig
    else if op.n <= left then Ok
    else Shortage(filling)
  }

  /** What becomes of a run on `d`: the first operation that fails decides. */
  function Verdict(d: seq<byte>, ops: seq<Op>, size: nat, filling: bool): (e: Error)
    ensures e == Ok ==> Total(ops) <= |d|
  {
    if ops == [] then Ok else
    var front := ops[..|ops| - 1];
    var e := Verdict(d, front, size, filling);
    if e != Ok then e else Ruling(|d| - Total(front), ops[|ops| - 1], size, filling)
  }

  /** The bytes of `d` that reads deliver. */
  function Picked(d: seq<byte>, ops: seq<Op>): seq<byte>
    requires Total(ops) <= |d|
  {
    if ops == [] then [] else
    var front, op := ops[..|ops| - 1], ops[|ops| - 1];
    Picked(d, front) + if op.Read? then d[Total(front)..Total(ops)] else []
  }

  lemma NothingPicked(d: seq<byte>, size: nat, filling: bool)
    ensures Total([]) == 0 && Picked(d, []) == [] && d[0..] == d && Verdict(d, [], size, filling) == Ok
  {
  }

  lemma {:induction false} OneMoreOp(d: seq<byte>, ops: seq<Op>, i: nat, size: nat, filling: bool)
    requires i < |ops|
    ensures var t, n, e := Total(ops[..i]), if ops[i].Ensure? then 0 else ops[i].n, Verdict(d, ops[..i], size, filling);
            && Total(ops[..i + 1]) == t + n
            && Verdict(d, ops[..i + 1], size, filling) ==
                  (if e != Ok then e else Ruling(|d| - t, ops[i], size, filling))
            && (t + n <= |d| ==>
                  && Picked(d, ops[..i + 1]) == Picked(d, ops[..i]) + (if ops[i].Read? then d[t..][..n] else [])
                  && d[t..][n..] == d[t + n..])
  {
    assert ops[..i + 1][..i] == ops[..i];
    var t := Total(ops[..i]);
    if t + ops[i].n <= |d| { assert d[t..][..ops[i].n] == d[t..t + ops[i].n]; }
  }

  lemma NoObject(d: seq<byte>, filling: bool)
    requires !HeaderAt(d, 0).Header?
    ensures Decode(d, 0, 1).Fail? && TagError(HeaderAt(d, 0), filling) == ErrorFor(DefectOf(d, 0, 1), filling) != Ok
  {
  }

  /** An object without others in it. */
  lemma RawObject(d: seq<byte>, filling: bool)
    requires HeaderAt(d, 0).Header? && Children(HeaderAt(d, 0).tag) == 0
    ensures var h, r := HeaderAt(d, 0), Decode(d, 0, 1);
            && (r.Done? <==> Payload(h.tag) <= |d[h.size..]|)
            && ErrorFor(DefectOf(d, 0, 1), filling) == (if r.Done? then Ok else Shortage(filling))
            && (r.Done? ==> r.next == h.size + Payload(h.tag) <= |d| && d[h.size..][Payload(h.tag)..] == d[r.next..])
            && d[h.size..][0..] == d[h.size..]
  {
  }

  /** An object with others in it. */
  lemma {:induction false} NestedObject(d: seq<byte>)
    requires HeaderAt(d, 0).Header? && Payload(HeaderAt(d, 0).tag) == 0
    ensures var h, r := HeaderAt(d, 0), Decode(d, 0, 1);
            var k := Decode(d[h.size..], 0, Children(h.tag));
            && (r.Done? <==> k.Done?) && DefectOf(d, 0, 1) == DefectOf(d[h.size..], 0, Children(h.tag))
            && (r.Done? && k.next <= |d[h.size..]| ==>
                r.next == h.size + k.next <= |d| && d[h.size..][k.next..] == d[r.next..])
  {
    hide Decode, DefectOf, HeaderAt, Wrap, ItemAt;
    var h := HeaderAt(d, 0);
    var m := Children(h.tag);
    NestedItem(d);
    DecodeShifts(h.size, d, d[h.size..], 0, m);
    DecodeUnfolds(d, 0, 1);
    DefectShifts(h.size, d, d[h.size..], 0, m);
    DefectUnfolds(d, 0, 1);
    if Decode(d, h.size, m).Done? { NoneLeft(d, Decode(d, h.size, m).next); }
  }

  lemma NestedItem(d: seq<byte>)
    requires HeaderAt(d, 0).Header? && Payload(HeaderAt(d, 0).tag) == 0
    ensures var h, i := HeaderAt(d, 0), ItemAt(d, 0);
            0 < h.size <= |d| && i.Item? && i.tag == h.tag && i.next == h.size && Behind(h.size, d, d[h.size..])
    ensures forall k: Parse :: Wrap(ItemAt(d, 0), k).Done? == k.Done?
              && (k.Done? ==> Wrap(ItemAt(d, 0), k).next == k.next)
  {
  }

  lemma NoneLeft(d: seq<byte>, p: nat)
    ensures Decode(d, p, 0) == Done([], p, 0)
  {
  }

  lemma NothingDiscarded(d: seq<byte>)
    ensures Decode(d, 0, 0) == Done([], 0, 0) && d[0..] == d && DefectOf(d, 0, 0) == NoDefect
  {
  }

  /** Decoding one more object behind `c` is decoding one in the rest. */
  lemma {:induction false} OneBehind(d: seq<byte>, c: nat)
    requires Decode(d, 0, c).Done? && Decode(d, 0, c).next <= |d|
    ensures var p := Decode(d, 0, c).next;
            var r, s := Decode(d, 0, c + 1), Decode(d[p..], 0, 1);
            && (r.Done? <==> s.Done?) && DefectOf(d, 0, c + 1) == DefectOf(d[p..], 0, 1)
            && (r.Done? && s.next <= |d[p..]| ==> r.next == p + s.next <= |d| && d[p..][s.next..] == d[r.next..])
  {
    hide Decode, DefectOf;
    var p := Decode(d, 0, c).next;
    DecodeSplit(d, 0, c, 1);
    DecodeShifts(p, d, d[p..], 0, 1);
    DefectSplit(d, 0, c, 1);
    DefectShifts(p, d, d[p..], 0, 1);
  }

  /** Objects behind a failure do not help. */
  lemma {:induction false} FailsOn(d: seq<byte>, c: nat, m: nat)
    requires c <= m && Decode(d, 0, c).Fail?
    ensures Decode(d, 0, m).Fail? && DefectOf(d, 0, m) == DefectOf(d, 0, c)
  {
    hide Decode, DefectOf;
    DecodeSplit(d, 0, c, m - c);
    DefectSplit(d, 0, c, m - c);
  }

  lemma NothingShort(d: seq<byte>)
    ensures d == [] ==> HeaderAt(d, 0) == Short
  {
  }

  /** What was left in the buffer, and bytes of the stream behind it. */
  lemma {:induction false} TakenTogether(b: seq<byte>, kept: seq<byte>, stream: seq<byte>, read: nat)
    requires read <= |stream| && |b| == |kept| + read
    ensures b[..|kept|] == kept && b[|kept|..] == stream[..read] ==> b + stream[read..] == kept + stream
  {
    if b[..|kept|] == kept && b[|kept|..] == stream[..read] {
      assert b == kept + stream[..read];
      assert stream == stream[..read] + stream[read..];
    }
  }

  lemma FrontOf(b: seq<byte>, stream: seq<byte>, n: nat)
    requires 0 < n <= |b|
    ensures (b + stream)[..n] == b[..n] && (b + stream)[0] == b[0] == b[..n][0]
  {
  }

  lemma TakenFromBuffer(b: seq<byte>, stream: seq<byte>, count: nat)
    requires count <= |b|
    ensures (b + stream)[..count] == b[..count] && (b + stream)[count..] == b[count..] + stream
  {
  }

  lemma SlicesJoin(t: seq<byte>, s: seq<byte>, a: nat, b: nat)
    requires a <= b <= |s| && t == s[..b]
    ensures t[a..] + s[b..] == s[a..]
  {
  }

  /** What was left in the buffer, and the rest directly from the stream. */
  lemma {:induction false} Straddled(p: seq<byte>, at: nat, left: nat, rest: nat, had: seq<byte>, stream: seq<byte>)
    requires at + left + rest <= |p| && rest <= |stream| && |had| == left
    requires p[at..at + left] == had && p[at + left..at + left + rest] == stream[..rest]
    ensures p[at..at + (left + rest)] == (had + stream)[..left + rest]
              && (had + stream)[left + rest..] == stream[rest..]
  {
    assert p[at..at + (left + rest)] == p[at..at + left] + p[at + left..at + left + rest];
  }

  /** A range written in two pieces. */
  lemma {:induction false} Joined(was: seq<byte>, now: seq<byte>, at: nat, count: nat, read: nat)
    requires |was| == |now| && at + count + read <= |now|
    requires now[..at + count] == was[..at + count]
    ensures now[at..at + count + read] == was[at..at + count] + now[at + count..at + count + read]
    ensures now[..at] == was[..at]
  {
    assert now[..at + count][at..] == was[..at + count][at..];
    assert now[..at + count][..at] == was[..at + count][..at];
  }
}
