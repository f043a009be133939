/** Little-endian encoding: what each write appends and each read takes off the front, and the
    writer and reader that do it. A `Put` function places an encoding in front of the bytes that
    follow it; the `Get` function of the same name takes it off again. */
module Binary {
  import opened Types

  function Power(n: nat): (p: nat)
    ensures p >= 1
  {
    if n == 0 then 1 else 256 * Power(n - 1)
  }

  lemma Powers()
    ensures Power(1) == 256 && Power(4) == TWO_32 && Power(8) == TWO_64
  {
    assert Power(2) == 0x1_0000 && Power(3) == 0x100_0000;
    assert Power(4) == TWO_32;
    assert Power(5) == 0x100_0000_0000 && Power(6) == 0x1_0000_0000_0000 && Power(7) == 0x100_0000_0000_0000;
  }

  /** The first `n` bytes as a number, low byte first, and what follows them. */
  function GetWord(n: nat, s: seq<byte>): (r: Option<(nat, seq<byte>)>)
    ensures r.Some? ==> r.value.0 < Power(n)
    decreases n, s
  {
    if n == 0 then Some((0, s))
    else if s == [] then None
    else
      var (high, rest) :- GetWord(n - 1, s[1..]);
      Some((s[0] + 256 * high, rest))
  }

  function PutWord(n: nat, v: nat, rest: seq<byte>): seq<byte>
    decreases n, v
  {
    if n == 0 then rest else [v % 256] + PutWord(n - 1, v / 256, rest)
  }

  lemma {:induction false} WordRoundTrip(n: nat, v: nat, rest: seq<byte>)
    requires v < Power(n)
    ensures GetWord(n, PutWord(n, v, rest)) == Some((v, rest))
    decreases n
  {
    if n > 0 {
      WordRoundTrip(n - 1, v / 256, rest);
      var s := PutWord(n, v, rest);
      assert s[0] == v % 256 && s[1..] == PutWord(n - 1, v / 256, rest);
    }
  }

  lemma {:induction false} WordReadIsStable(n: nat, s: seq<byte>, t: seq<byte>)
    requires GetWord(n, s).Some?
    ensures GetWord(n, s + t) == Extend(GetWord(n, s), t)
    decreases n
  {
    if n > 0 {
      assert (s + t)[1..] == s[1..] + t;
      WordReadIsStable(n - 1, s[1..], t);
    }
  }

  // ----- Fixed-width words -----

  function GetByte(s: seq<byte>): Option<(byte, seq<byte>)> {
    Powers();
    var (b, rest) :- GetWord(1, s);
    Some((b, rest))
  }

  function PutByte(b: byte, rest: seq<byte>): (s: seq<byte>)
    ensures GetByte(s) == Some((b, rest))
  {
    Powers();
    WordRoundTrip(1, b, rest);
    PutWord(1, b, rest)
  }

  function GetU32(s: seq<byte>): Option<(nat, seq<byte>)> {
    GetWord(4, s)
  }

  function PutU32(v: nat, rest: seq<byte>): (s: seq<byte>)
    requires v < TWO_32
    ensures GetU32(s) == Some((v, rest))
  {
    Powers();
    WordRoundTrip(4, v, rest);
    PutWord(4, v, rest)
  }

  function GetU64(s: seq<byte>): Option<(U64, seq<byte>)> {
    Powers();
    var (v, rest) :- GetWord(8, s);
    Some((v, rest))
  }

  function PutU64(v: U64, rest: seq<byte>): (s: seq<byte>)
    ensures GetU64(s) == Some((v, rest))
  {
    Powers();
    WordRoundTrip(8, v, rest);
    PutWord(8, v, rest)
  }

  // ----- Signed words in two's complement -----

  function Signed64(v: U64): I64 {
    if v < TWO_63 then v else v - TWO_64
  }

  function Unsigned64(v: I64): (u: U64)
    ensures Signed64(u) == v
  {
    if v < 0 then v + TWO_64 else v
  }

  function GetI64(s: seq<byte>): Option<(I64, seq<byte>)> {
    var (v, rest) :- GetU64(s);
    Some((Signed64(v), rest))
  }

  function PutI64(v: I64, rest: seq<byte>): (s: seq<byte>)
    ensures GetI64(s) == Some((v, rest))
  {
    PutU64(Unsigned64(v), rest)
  }

  function Signed32(v: nat): I32
    requires v < TWO_32
  {
    if v < 0x8000_0000 then v else v - TWO_32
  }

  function Unsigned32(v: I32): (u: nat)
    ensures u < TWO_32 && Signed32(u) == v
  {
    if v < 0 then v + TWO_32 else v
  }

  function GetI32(s: seq<byte>): Option<(I32, seq<byte>)> {
    Powers();
    var (v, rest) :- GetU32(s);
    Some((Signed32(v), rest))
  }

  function PutI32(v: I32, rest: seq<byte>): (s: seq<byte>)
    ensures GetI32(s) == Some((v, rest))
  {
    PutU32(Unsigned32(v), rest)
  }

  // ----- Booleans, doubles, strings -----

  /** Every byte but zero reads as true. */
  function GetBool(s: seq<byte>): Option<(bool, seq<byte>)> {
    var (b, rest) :- GetByte(s);
    Some((b != 0, rest))
  }

  function PutBool(v: bool, rest: seq<byte>): (s: seq<byte>)
    ensures GetBool(s) == Some((v, rest))
  {
    PutByte(if v then 1 else 0, rest)
  }

  function GetDouble(s: seq<byte>): Option<(Double, seq<byte>)> {
    var (v, rest) :- GetU64(s);
    Some((Double(v), rest))
  }

  function PutDouble(v: Double, rest: seq<byte>): (s: seq<byte>)
    ensures GetDouble(s) == Some((v, rest))
  {
    PutU64(v.bits, rest)
  }

  /** A length-prefixed string, refused when it is longer than `limit` or than what is left. */
  function GetText(s: seq<byte>, limit: nat): Option<(Text, seq<byte>)> {
    var (n, s) :- GetU64(s);
    if n > limit || n > |s| then None else Some((s[..n], s[n..]))
  }

  function PutText(t: Text, rest: seq<byte>): (s: seq<byte>)
    ensures forall limit: nat :: GetText(s, limit) == if |t| <= limit then Some((t, rest)) else None
  {
    assert (t + rest)[..|t|] == t && (t + rest)[|t|..] == rest;
    PutU64(|t|, t + rest)
  }

  // ----- Reading does not look past what it takes -----

  /** The outcome of a read when `t` is added at the end of the input. */
  function Extend<T>(r: Option<(T, seq<byte>)>, t: seq<byte>): Option<(T, seq<byte>)> {
    if r.Some? then Some((r.value.0, r.value.1 + t)) else None
  }

  /** Bytes added at the end of the input are left over, and change nothing else. */
  ghost predicate Stable<T(!new)>(get: seq<byte> -> Option<(T, seq<byte>)>) {
    forall s, t {:trigger get(s + t)} :: get(s).Some? ==> get(s + t) == Extend(get(s), t)
  }

  lemma ReadsAreStable()
    ensures forall s, t {:trigger GetByte(s + t)} :: GetByte(s).Some? ==> GetByte(s + t) == Extend(GetByte(s), t)
    ensures forall s, t {:trigger GetU32(s + t)} :: GetU32(s).Some? ==> GetU32(s + t) == Extend(GetU32(s), t)
    ensures forall s, t {:trigger GetU64(s + t)} :: GetU64(s).Some? ==> GetU64(s + t) == Extend(GetU64(s), t)
    ensures forall s, t {:trigger GetI32(s + t)} :: GetI32(s).Some? ==> GetI32(s + t) == Extend(GetI32(s), t)
    ensures forall s, t {:trigger GetI64(s + t)} :: GetI64(s).Some? ==> GetI64(s + t) == Extend(GetI64(s), t)
    ensures forall s, t {:trigger GetBool(s + t)} :: GetBool(s).Some? ==> GetBool(s + t) == Extend(GetBool(s), t)
    ensures forall s, t {:trigger GetDouble(s + t)} :: GetDouble(s).Some? ==> GetDouble(s + t) == Extend(GetDouble(s), t)
    ensures forall s, t, limit {:trigger GetText(s + t, limit)} ::
      GetText(s, limit).Some? ==> GetText(s + t, limit) == Extend(GetText(s, limit), t)
  {
    WordReadsAreStable();
    forall s, t, limit: nat | GetText(s, limit).Some?
      ensures GetText(s + t, limit) == Extend(GetText(s, limit), t)
    {
      var (n, r) := GetU64(s).value;
      assert GetU64(s + t) == Some((n, r + t));
      assert (r + t)[..n] == r[..n] && (r + t)[n..] == r[n..] + t;
    }
  }

  lemma WordReadsAreStable()
    ensures forall s, t {:trigger GetByte(s + t)} :: GetByte(s).Some? ==> GetByte(s + t) == Extend(GetByte(s), t)
    ensures forall s, t {:trigger GetU32(s + t)} :: GetU32(s).Some? ==> GetU32(s + t) == Extend(GetU32(s), t)
    ensures forall s, t {:trigger GetU64(s + t)} :: GetU64(s).Some? ==> GetU64(s + t) == Extend(GetU64(s), t)
    ensures forall s, t {:trigger GetI32(s + t)} :: GetI32(s).Some? ==> GetI32(s + t) == Extend(GetI32(s), t)
  {
    forall s, t | GetWord(1, s).Some? ensures GetWord(1, s + t) == Extend(GetWord(1, s), t) {
      WordReadIsStable(1, s, t);
    }
    forall s, t | GetWord(4, s).Some? ensures GetWord(4, s + t) == Extend(GetWord(4, s), t) {
      WordReadIsStable(4, s, t);
    }
    forall s, t | GetWord(8, s).Some? ensures GetWord(8, s + t) == Extend(GetWord(8, s), t) {
      WordReadIsStable(8, s, t);
    }
  }

  // ----- Counted lists -----

  function PutAll<T>(put: (T, seq<byte>) -> seq<byte>, xs: seq<T>, rest: seq<byte>): seq<byte> {
    if xs == [] then rest else put(xs[0], PutAll(put, xs[1..], rest))
  }

  function GetAll<T>(get: seq<byte> -> Option<(T, seq<byte>)>, n: nat, s: seq<byte>): Option<(seq<T>, seq<byte>)>
    decreases n
  {
    if n == 0 then Some(([], s)) else
    var (x, s) :- get(s);
    var (xs, s) :- GetAll(get, n - 1, s);
    Some(([x] + xs, s))
  }

  /** A list read that starts with elements already taken. */
  function Prepend<T>(taken: seq<T>, r: Option<(seq<T>, seq<byte>)>): Option<(seq<T>, seq<byte>)> {
    if r.Some? then Some((taken + r.value.0, r.value.1)) else None
  }

  lemma PrependNothing<T>(r: Option<(seq<T>, seq<byte>)>)
    ensures Prepend([], r) == r
  {
    if r.Some? {
      assert [] + r.value.0 == r.value.0;
    }
  }

  lemma PrependNext<T>(get: seq<byte> -> Option<(T, seq<byte>)>, taken: seq<T>, n: nat, s: seq<byte>)
    requires n > 0
    ensures get(s).None? ==> Prepend(taken, GetAll(get, n, s)).None?
    ensures get(s).Some? ==>
      Prepend(taken, GetAll(get, n, s)) == Prepend(taken + [get(s).value.0], GetAll(get, n - 1, get(s).value.1))
  {
    if get(s).Some? {
      var (x, rest) := get(s).value;
      if GetAll(get, n - 1, rest).Some? {
        var xs := GetAll(get, n - 1, rest).value.0;
        assert taken + ([x] + xs) == taken + [x] + xs;
      }
    }
  }

  /** `get` takes off what `put` placed exactly when the element is acceptable. */
  ghost predicate Inverse<T(!new)>(
    put: (T, seq<byte>) -> seq<byte>, get: seq<byte> -> Option<(T, seq<byte>)>, good: T -> bool)
  {
    forall x, rest {:trigger put(x, rest)} ::
      get(put(x, rest)) == if good(x) then Some((x, rest)) else None
  }

  ghost predicate All<T>(good: T -> bool, xs: seq<T>) {
    forall i {:trigger xs[i]} :: 0 <= i < |xs| ==> good(xs[i])
  }

  lemma {:induction false} ListRoundTrip<T(!new)>(
    put: (T, seq<byte>) -> seq<byte>, get: seq<byte> -> Option<(T, seq<byte>)>, good: T -> bool,
    xs: seq<T>, rest: seq<byte>)
    requires Inverse(put, get, good)
    ensures GetAll(get, |xs|, PutAll(put, xs, rest)) == if All(good, xs) then Some((xs, rest)) else None
  {
    if xs != [] {
      ListRoundTrip(put, get, good, xs[1..], rest);
      assert xs == [xs[0]] + xs[1..];
      if All(good, xs) {
        assert good(xs[0]) && All(good, xs[1..]);
      } else if All(good, xs[1..]) {
        assert forall i :: 1 <= i < |xs| ==> xs[i] == xs[1..][i - 1];
        assert !good(xs[0]);
      }
    }
  }

  lemma {:induction false} ListReadIsStable<T(!new)>(
    get: seq<byte> -> Option<(T, seq<byte>)>, n: nat, s: seq<byte>, t: seq<byte>)
    requires Stable(get) && GetAll(get, n, s).Some?
    ensures GetAll(get, n, s + t) == Extend(GetAll(get, n, s), t)
    decreases n
  {
    if n > 0 {
      var (x, r) := get(s).value;
      assert get(s + t) == Some((x, r + t));
      ListReadIsStable(get, n - 1, r, t);
    }
  }
}
