/**
 The two byte streams. An output stream either writes into a caller's buffer or only
 counts (the sizing pass); an input stream reads from a buffer and can be split into a
 length-delimited substream.
 */
module PbStream {
  import opened Common

  /** What writing an encoding (None: the data cannot be encoded) must do, in terms of the counters. */
  function Concat(a: Option<seq<byte>>, b: Option<seq<byte>>): Option<seq<byte>> {
    if a.Some? && b.Some? then Some(a.value + b.value) else None
  }

  lemma ConcatUnit(e: Option<seq<byte>>)
    ensures Concat(Some([]), e) == e
  {
    if e.Some? {
      assert [] + e.value == e.value;
    }
  }

  /** Moving the next piece from what remains to what is done. */
  lemma ConcatStep(done: seq<byte>, piece: Option<seq<byte>>, rest: Option<seq<byte>>)
    ensures piece.Some? ==> Concat(Some(done), Concat(piece, rest)) == Concat(Some(done + piece.value), rest)
  {
    if piece.Some? && rest.Some? {
      assert done + (piece.value + rest.value) == (done + piece.value) + rest.value;
    }
  }

  /** What an output stream has taken so far: its counters and, with a buffer, the bytes in front of it. */
  datatype Written = Written(counting: bool, written: nat, maxSize: nat, text: seq<byte>)

  /**
   The promise every encoder keeps: it succeeds exactly when there is an encoding that fits,
   then exactly these bytes follow what was there, and nothing in front is ever touched.
   */
  ghost predicate Step(v: Written, ok: bool, enc: Option<seq<byte>>, v': Written) {
    && v'.counting == v.counting && v'.maxSize == v.maxSize
    && (ok <==> enc.Some? && (v.counting || v.written + |enc.value| <= v.maxSize))
    && (ok ==> v'.written == v.written + |enc.value|)
    && (v.counting ==> v'.text == v.text)
    && (!v.counting ==> v.text <= v'.text && |v'.text| - |v.text| == v'.written - v.written)
    && (!v.counting && ok ==> v'.text == v.text + enc.value)
  }

  /** Two encoders in a row make one encoder of the two pieces. */
  lemma Then(v0: Written, a: Option<seq<byte>>, v1: Written, ok: bool, b: Option<seq<byte>>, v2: Written)
    requires Step(v0, true, a, v1) && Step(v1, ok, b, v2)
    ensures Step(v0, ok, Concat(a, b), v2)
  {
    if ok && !v0.counting {
      assert v0.text + a.value + b.value == v0.text + (a.value + b.value);
    }
  }

  class OStream {
    const buf: array?<byte>  // null: no callback, the stream only counts
    var state: nat           // where in buf the next byte goes
    var maxSize: nat
    var bytesWritten: nat

    ghost predicate Valid()
      reads this
    {
      buf != null ==> bytesWritten <= maxSize && state + (maxSize - bytesWritten) <= buf.Length
    }

    ghost function View(): Written
      requires Valid()
      reads this, buf
    {
      Written(buf == null, bytesWritten, maxSize, if buf == null then [] else buf[..state])
    }

    constructor FromBuffer(buffer: array<byte>)
      ensures Valid() && buf == buffer && state == 0 && maxSize == buffer.Length && bytesWritten == 0
    {
      buf, state, maxSize, bytesWritten := buffer, 0, buffer.Length, 0;
    }

    constructor Sizing()
      ensures Valid() && buf == null && bytesWritten == 0
    {
      buf, state, maxSize, bytesWritten := null, 0, 0, 0;
    }

    /** The view of a parent stream that may only take the next size bytes. */
    constructor Window(parent: OStream, size: nat)
      requires parent.Valid() && parent.buf != null
      requires parent.bytesWritten + size <= parent.maxSize
      ensures Valid() && buf == parent.buf && state == parent.state && maxSize == size && bytesWritten == 0
    {
      buf, state, maxSize, bytesWritten := parent.buf, parent.state, size, 0;
    }

    twostate predicate Appended(ok: bool, new enc: Option<seq<byte>>)
      requires old(Valid())
      reads this, buf
    {
      Valid() && Step(old(View()), ok, enc, View())
    }

    method Write(data: seq<byte>) returns (ok: bool)
      requires Valid()
      modifies this, buf
      ensures Appended(ok, Some(data))
    {
      if |data| > 0 && buf != null {
        if bytesWritten + |data| > maxSize {
          return false;
        }
        forall i | 0 <= i < |data| {
          buf[state + i] := data[i];
        }
        state := state + |data|;
      }
      bytesWritten := bytesWritten + |data|;
      return true;
    }

    /** Writing from a null pointer: a sizing stream counts without looking at the data. */
    method Count(size: nat)
      requires Valid() && buf == null
      modifies this
      ensures Valid() && View() == old(View()).(written := old(bytesWritten) + size)
    {
      bytesWritten := bytesWritten + size;
    }
  }

  class IStream {
    const buf: seq<byte>
    var state: nat      // where in buf the next byte is
    var bytesLeft: nat

    ghost predicate Valid()
      reads this
    {
      state + bytesLeft <= |buf|
    }

    /** The bytes this stream may still read. */
    ghost function Rest(): seq<byte>
      requires Valid()
      reads this
    {
      buf[state..state + bytesLeft]
    }

    constructor FromBuffer(msg: seq<byte>)
      ensures Valid() && buf == msg && Rest() == msg && state == 0
    {
      buf, state, bytesLeft := msg, 0, |msg|;
    }

    /** The stream has moved on and not past the end of its window. */
    twostate predicate Within()
      reads this
    {
      Valid() && old(state) <= state && state + bytesLeft <= old(state) + old(bytesLeft)
    }

    /** It also gave nothing up: position plus bytes left is conserved. */
    twostate predicate Advanced()
      reads this
    {
      Within() && state + bytesLeft == old(state) + old(bytesLeft)
    }

    /** The promise every decoder keeps: it succeeds exactly when the parse does, with its value and its leftover. */
    twostate predicate Parsed<T>(ok: bool, new value: T, new parse: Option<(T, seq<byte>)>)
      reads this
    {
      && Within()
      && ok == parse.Some?
      && (ok ==> Advanced() && value == parse.value.0 && Rest() == parse.value.1)
    }

    /** Reading count bytes; a skip is a read whose result is not used. */
    method Read(count: nat) returns (ok: bool, data: seq<byte>)
      requires Valid()
      modifies this
      ensures Advanced()
      ensures ok == (count <= |old(Rest())|)
      ensures ok ==> data == old(Rest())[..count] && Rest() == old(Rest())[count..]
      ensures !ok ==> Rest() == old(Rest())
    {
      if bytesLeft < count {
        return false, [];
      }
      data := buf[state..state + count];
      state, bytesLeft := state + count, bytesLeft - count;
      ok := true;
    }

    method ReadByte() returns (ok: bool, b: byte)
      requires Valid()
      modifies this
      ensures Advanced()
      ensures ok == (old(Rest()) != [])
      ensures ok ==> b == old(Rest())[0] && Rest() == old(Rest())[1..]
    {
      if bytesLeft == 0 {
        return false, 0;
      }
      b := buf[state];
      state, bytesLeft := state + 1, bytesLeft - 1;
      ok := true;
    }
  }
}
