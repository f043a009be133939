/** The growing output buffer and the bounds-checked input cursor of the state codec. */
module ByteStreams {
  import opened Types
  import opened Binary

  lemma {:induction false} PutWordAppends(n: nat, v: nat, rest: seq<byte>)
    ensures PutWord(n, v, rest) == PutWord(n, v, []) + rest
    decreases n
  {
    if n > 0 {
      PutWordAppends(n - 1, v / 256, rest);
    }
  }

  /** Whatever follows the new buffer follows the old one behind the encoding of `v`. */
  class ByteWriter {
    var buf: seq<byte>

    constructor ()
      ensures buf == []
    {
      buf := [];
    }

    method WriteWord(n: nat, v: nat)
      modifies this
      ensures forall rest {:trigger buf + rest} :: buf + rest == old(buf) + PutWord(n, v, rest)
    {
      var x := v;
      for i := 0 to n
        invariant buf + PutWord(n - i, x, []) == old(buf) + PutWord(n, v, [])
      {
        var more := PutWord(n - i - 1, x / 256, []);
        assert buf + PutWord(n - i, x, []) == buf + [x % 256] + more;
        buf := buf + [x % 256];
        x := x / 256;
      }
      forall rest ensures buf + rest == old(buf) + PutWord(n, v, rest) {
        PutWordAppends(n, v, rest);
        assert old(buf) + PutWord(n, v, []) + rest == old(buf) + (PutWord(n, v, []) + rest);
      }
    }

    method WriteByte(b: byte)
      modifies this
      ensures forall rest {:trigger buf + rest} :: buf + rest == old(buf) + PutByte(b, rest)
    {
      WriteWord(1, b);
    }

    method WriteBool(v: bool)
      modifies this
      ensures forall rest {:trigger buf + rest} :: buf + rest == old(buf) + PutBool(v, rest)
    {
      WriteByte(if v then 1 else 0);
    }

    method WriteU32(v: nat)
      requires v < TWO_32
      modifies this
      ensures forall rest {:trigger buf + rest} :: buf + rest == old(buf) + PutU32(v, rest)
    {
      WriteWord(4, v);
    }

    method WriteI32(v: I32)
      modifies this
      ensures forall rest {:trigger buf + rest} :: buf + rest == old(buf) + PutI32(v, rest)
    {
      WriteU32(Unsigned32(v));
    }

    method WriteU64(v: U64)
      modifies this
      ensures forall rest {:trigger buf + rest} :: buf + rest == old(buf) + PutU64(v, rest)
    {
      WriteWord(8, v);
    }

    method WriteI64(v: I64)
      modifies this
      ensures forall rest {:trigger buf + rest} :: buf + rest == old(buf) + PutI64(v, rest)
    {
      WriteU64(Unsigned64(v));
    }

    method WriteDouble(v: Double)
      modifies this
      ensures forall rest {:trigger buf + rest} :: buf + rest == old(buf) + PutDouble(v, rest)
    {
      WriteU64(v.bits);
    }

    method WriteBytes(t: seq<byte>)
      modifies this
      ensures buf == old(buf) + t
    {
      for i := 0 to |t|
        invariant buf == old(buf) + t[..i]
      {
        buf := buf + [t[i]];
      }
      assert t[..|t|] == t;
    }

    method WriteText(t: Text)
      modifies this
      ensures forall rest {:trigger buf + rest} :: buf + rest == old(buf) + PutText(t, rest)
    {
      WriteU64(|t|);
      ghost var counted := buf;
      WriteBytes(t);
      forall rest ensures buf + rest == old(buf) + PutText(t, rest) {
        assert buf + rest == counted + (t + rest);
      }
    }
  }

  /** The outcome of a read agrees with the function that says what the read takes. */
  ghost predicate Takes<T>(got: Option<T>, left: seq<byte>, spec: Option<(T, seq<byte>)>) {
    match spec
    case None => got.None?
    case Some((v, rest)) => got == Some(v) && left == rest
  }

  class ByteReader {
    const data: seq<byte>
    var pos: nat

    ghost predicate Valid()
      reads this
    {
      pos <= |data|
    }

    /** The bytes not read yet. */
    ghost function Rest(): seq<byte>
      requires Valid()
      reads this
    {
      data[pos..]
    }

    constructor (data: seq<byte>)
      ensures Valid() && this.data == data && Rest() == data
    {
      this.data := data;
      pos := 0;
    }

    method ReadWord(n: nat) returns (r: Option<nat>)
      requires Valid()
      modifies this
      ensures Valid() && Takes(r, Rest(), GetWord(n, old(Rest())))
    {
      ghost var s := Rest();
      if n > |data| - pos {
        ShortWord(n, s);
        return None;
      }
      var out, weight := 0, 1;
      assert s[0..] == s;
      WordFound(n, s);
      for i := 0 to n
        invariant pos == old(pos) && weight == Power(i)
        invariant GetWord(n - i, s[i..]).Some? && GetWord(n - i, s[i..]).value.1 == s[n..]
        invariant GetWord(n, s).value.0 == out + weight * GetWord(n - i, s[i..]).value.0
      {
        assert s[i..][0] == data[pos + i] && s[i..][1..] == s[i + 1..];
        Distribute(weight, data[pos + i], GetWord(n - i - 1, s[i + 1..]).value.0);
        out := out + weight * data[pos + i];
        weight := weight * 256;
      }
      pos := pos + n;
      r := Some(out);
    }

    method ReadByte() returns (r: Option<byte>)
      requires Valid()
      modifies this
      ensures Valid() && Takes(r, Rest(), GetByte(old(Rest())))
    {
      Powers();
      var v :- ReadWord(1);
      r := Some(v);
    }

    method ReadBool() returns (r: Option<bool>)
      requires Valid()
      modifies this
      ensures Valid() && Takes(r, Rest(), GetBool(old(Rest())))
    {
      var v :- ReadByte();
      r := Some(v != 0);
    }

    method ReadU32() returns (r: Option<nat>)
      requires Valid()
      modifies this
      ensures Valid() && Takes(r, Rest(), GetU32(old(Rest())))
    {
      r := ReadWord(4);
    }

    method ReadI32() returns (r: Option<I32>)
      requires Valid()
      modifies this
      ensures Valid() && Takes(r, Rest(), GetI32(old(Rest())))
    {
      Powers();
      var v :- ReadWord(4);
      r := Some(Signed32(v));
    }

    method ReadU64() returns (r: Option<U64>)
      requires Valid()
      modifies this
      ensures Valid() && Takes(r, Rest(), GetU64(old(Rest())))
    {
      Powers();
      var v :- ReadWord(8);
      r := Some(v);
    }

    method ReadI64() returns (r: Option<I64>)
      requires Valid()
      modifies this
      ensures Valid() && Takes(r, Rest(), GetI64(old(Rest())))
    {
      var v :- ReadU64();
      r := Some(Signed64(v));
    }

    method ReadDouble() returns (r: Option<Double>)
      requires Valid()
      modifies this
      ensures Valid() && Takes(r, Rest(), GetDouble(old(Rest())))
    {
      var v :- ReadU64();
      r := Some(Double(v));
    }

    method ReadText(limit: nat) returns (r: Option<Text>)
      requires Valid()
      modifies this
      ensures Valid() && Takes(r, Rest(), GetText(old(Rest()), limit))
    {
      var n :- ReadU64();
      if n > limit {
        return None;
      }
      if n > |data| - pos {
        return None;
      }
      assert Rest()[..n] == data[pos..pos + n] && Rest()[n..] == data[pos + n..];
      r := Some(data[pos..pos + n]);
      pos := pos + n;
    }

    method Exhausted() returns (b: bool)
      requires Valid()
      ensures b <==> Rest() == []
    {
      b := pos == |data|;
    }
  }

  lemma {:induction false} ShortWord(n: nat, s: seq<byte>)
    requires n > |s|
    ensures GetWord(n, s).None?
    decreases n
  {
    if s != [] {
      ShortWord(n - 1, s[1..]);
    }
  }

  lemma {:induction false} WordFound(n: nat, s: seq<byte>)
    requires n <= |s|
    ensures GetWord(n, s).Some? && GetWord(n, s).value.1 == s[n..]
    decreases n
  {
    if n > 0 {
      WordFound(n - 1, s[1..]);
    }
  }

  lemma Distribute(p: nat, a: nat, h: nat)
    ensures p * (a + 256 * h) == p * a + (p * 256) * h
  {}
}
