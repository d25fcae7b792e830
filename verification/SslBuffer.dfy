/** SSLBuffer: a byte queue in one allocation, with 16-bit offset, size and capacity. */
module SslBuffer {
  import opened BigEndianBytes
  import opened Common

  const ALIGN_PAYLOAD: nat := 8                // SSL3_ALIGN_PAYLOAD

  /** The fields of the buffer over some memory; `cap` counts from the offset. */
  datatype Fields = Fields(offset: nat, size: nat, cap: nat)
  {
    predicate Valid(length: nat)
    {
      offset < TWO_16 && cap < TWO_16 && size <= cap && offset + cap <= length
    }
  }

  function Contents(mem: seq<byte>, f: Fields): seq<byte>
    requires f.Valid(|mem|)
  {
    mem[f.offset..f.offset + f.size]
  }

  /** SSLBuffer::Consume: the additions and subtractions are on uint16_t. */
  function Consumed(f: Fields, n: nat): Fields
    requires n <= f.size <= f.cap
  {
    Fields((f.offset + n) % TWO_16, f.size - n, f.cap - n)
  }

  /** Consuming drops exactly the first n bytes, whatever the memory holds, if and only if the offset does not
      wrap or nothing is left. */
  lemma ConsumeExact(length: nat, f: Fields, n: nat)
    requires f.Valid(length) && n <= f.size
    ensures Consumed(f, n).Valid(length)
    ensures f.offset + n < TWO_16 || n == f.size <==>
      forall mem: seq<byte> :: |mem| == length ==> Contents(mem, Consumed(f, n)) == Contents(mem, f)[n..]
  {
    if f.offset + n >= TWO_16 && n < f.size {
      var mem: seq<byte> := seq(length, i => if i == f.offset + n then 1 else 0);
      assert Contents(mem, f)[n..][0] == 1;
      assert Contents(mem, Consumed(f, n))[0] == 0;
    }
  }

  /** The end of the capacity is within 16 bits. Consuming keeps it, so no consumption loses anything. */
  predicate Safe(f: Fields) { f.offset + f.cap <= TWO_16 }

  lemma SafeConsume(f: Fields, n: nat)
    requires Safe(f) && n <= f.size <= f.cap
    ensures Safe(Consumed(f, n)) && (f.offset + n < TWO_16 || n == f.size)
    ensures f.offset + f.cap < TWO_16 ==> Consumed(f, n).offset == f.offset + n
  {
  }

  /** A full buffer whose payload starts at the given offset of its allocation keeps the rest when n bytes are consumed. */
  ghost predicate Keeps(cap: nat, offset: nat, n: nat)
    requires cap < TWO_16 && offset < ALIGN_PAYLOAD && n <= cap
  {
    forall mem: seq<byte> :: |mem| == cap + ALIGN_PAYLOAD - 1 ==>
      Contents(mem, Consumed(Fields(offset, cap, cap), n)) == Contents(mem, Fields(offset, cap, cap))[n..]
  }

  /** A full buffer loses nothing, however its payload is aligned and however much of it is consumed at a time, if and
      only if its capacity and the alignment slack stay within 16 bits. */
  lemma KeepsExactly(cap: nat)
    requires 0 < cap < TWO_16
    ensures cap + ALIGN_PAYLOAD - 1 <= TWO_16 <==> forall offset: nat, n: nat :: offset < ALIGN_PAYLOAD && n <= cap ==> Keeps(cap, offset, n)
  {
    forall offset: nat, n: nat | offset < ALIGN_PAYLOAD && n <= cap ensures Keeps(cap, offset, n) <==> offset + n < TWO_16 || n == cap {
      ConsumeExact(cap + ALIGN_PAYLOAD - 1, Fields(offset, cap, cap), n);
    }
    hide Keeps;
    if cap + ALIGN_PAYLOAD - 1 > TWO_16 {
      assert !Keeps(cap, ALIGN_PAYLOAD - 1, TWO_16 - (ALIGN_PAYLOAD - 1));
    }
  }

  class SslBuffer {
    var buf: array<byte>                       // a released buffer is an empty array
    var fields: Fields

    ghost predicate Valid()
      reads this
    {
      fields.Valid(buf.Length)
    }

    ghost function View(): seq<byte>
      requires Valid()
      reads this, buf
    {
      buf[fields.offset..fields.offset + fields.size]
    }

    constructor ()
      ensures Valid() && View() == [] && fresh(buf) && Safe(fields)
    {
      buf, fields := new byte[0], Fields(0, 0, 0);
    }

    /** Clear */
    method Clear()
      modifies this
      ensures Valid() && View() == [] && fresh(buf) && fields == Fields(0, 0, 0)
    {
      buf, fields := new byte[0], Fields(0, 0, 0);
    }

    /** EnsureCap. `address` is where the new allocation lies; the byte after a header of `headerLen` bytes will
        be aligned. */
    method EnsureCap(headerLen: nat, newCap: nat, address: nat) returns (ok: bool)
      requires Valid()
      modifies this
      ensures Valid() && View() == old(View()) && (fresh(buf) || buf == old(buf)) && fields.size == old(fields.size)
      ensures ok == (newCap < TWO_16) && (ok ==> fields.cap >= newCap) && (!ok ==> fields == old(fields))
      ensures ok && old(fields.cap) < newCap ==>
        fields.cap == newCap && fields.offset < ALIGN_PAYLOAD && (address + fields.offset + headerLen) % ALIGN_PAYLOAD == 0
      ensures old(Safe(fields)) && newCap + ALIGN_PAYLOAD - 1 <= TWO_16 ==> Safe(fields)
    {
      if newCap > 0xffff {
        return false;
      }
      if fields.cap >= newCap {
        return true;
      }
      var newBuf := new byte[newCap + ALIGN_PAYLOAD - 1];
      var newOffset := (0 - headerLen - address) % ALIGN_PAYLOAD;       // & (SSL3_ALIGN_PAYLOAD - 1)
      var size := fields.size;
      forall i | 0 <= i < size { newBuf[newOffset + i] := buf[fields.offset + i]; }
      assert newBuf[newOffset..newOffset + size] == View();
      buf, fields := newBuf, Fields(newOffset, size, newCap);
      return true;
    }

    /** Filling the remaining span from its start, and DidWrite */
    method Append(bytes: seq<byte>)
      requires Valid() && |bytes| <= fields.cap - fields.size
      modifies this, buf
      ensures Valid() && View() == old(View()) + bytes && buf == old(buf)
      ensures fields == old(fields).(size := old(fields.size) + |bytes|)
    {
      ghost var before := View();
      var end := fields.offset + fields.size;
      forall i | 0 <= i < |bytes| { buf[end + i] := bytes[i]; }
      assert buf[fields.offset..end] == before && buf[end..end + |bytes|] == bytes;
      fields := fields.(size := fields.size + |bytes|);
      assert View() == before + bytes;
    }

    /** Consume */
    method Consume(n: nat)
      requires Valid() && n <= fields.size
      modifies this`fields
      ensures Valid() && fields == Consumed(old(fields), n)
      ensures old(fields.offset) + n < TWO_16 || n == old(fields.size) ==> View() == old(View())[n..]
    {
      fields := Consumed(fields, n);
    }

    /** DiscardConsumed */
    method DiscardConsumed()
      requires Valid()
      modifies this
      ensures Valid() && View() == old(View()) && (old(fields.size) == 0 ==> fields == Fields(0, 0, 0))
      ensures old(fields.size) != 0 ==> fields == old(fields) && buf == old(buf)
    {
      if fields.size == 0 {
        Clear();
      }
    }
  }
}
