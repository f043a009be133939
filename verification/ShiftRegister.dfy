/** Shift registers over an arbitrary word type. Only three facts about a register matter for its
    power to detect errors: turning it is additive, turning it loses nothing, and a message byte
    enters it eight turns at a time. What follows from them is proved here once. */
module ShiftRegister {

  function Steps<W>(step: W -> W, c: W, k: nat): W
    decreases k, c
  {
    if k == 0 then c else Steps(step, step(c), k - 1)
  }

  /** The register after the symbols of a message have been fed in order. */
  function Fold<W, B>(feed: (W, B) -> W, c: W, data: seq<B>): W
    decreases |data|
  {
    if data == [] then c else Fold(feed, feed(c, data[0]), data[1..])
  }

  ghost predicate Additive<W(!new)>(xor: (W, W) -> W, step: W -> W) {
    forall a, b {:trigger step(xor(a, b))} :: step(xor(a, b)) == xor(step(a), step(b))
  }

  ghost predicate OneToOne<W(!new)>(step: W -> W) {
    forall a, b {:trigger step(a), step(b)} :: step(a) == step(b) ==> a == b
  }

  ghost predicate Cancels<W(!new)>(xor: (W, W) -> W) {
    forall a, b, x {:trigger xor(a, x), xor(b, x)} :: xor(a, x) == xor(b, x) ==> a == b
  }

  /** Feeding a byte is adding it at the low end and turning the register eight times. */
  ghost predicate FeedsBytes<W(!new), B(!new)>(
    xor: (W, W) -> W, step: W -> W, at: (B, nat) -> W, feed: (W, B) -> W)
  {
    forall c, b {:trigger feed(c, b)} :: feed(c, b) == Steps(step, xor(c, at(b, 0)), 8)
  }

  /** A byte placed one position higher reaches the position below after eight turns. */
  ghost predicate BytesDescend<W, B(!new)>(step: W -> W, at: (B, nat) -> W) {
    forall b, i: nat {:trigger at(b, i)} :: i < 3 ==> Steps(step, at(b, i + 1), 8) == at(b, i)
  }

  function Absorb<W, B>(xor: (W, W) -> W, at: (B, nat) -> W, c: W, d: seq<B>): W
    requires |d| == 4
  {
    xor(xor(xor(xor(c, at(d[0], 0)), at(d[1], 1)), at(d[2], 2)), at(d[3], 3))
  }

  ghost predicate WordsDistinct<W(!new), B(!new)>(xor: (W, W) -> W, at: (B, nat) -> W) {
    forall c, d: seq<B>, e: seq<B> {:trigger Absorb(xor, at, c, d), Absorb(xor, at, c, e)} ::
      |d| == |e| == 4 && Absorb(xor, at, c, d) == Absorb(xor, at, c, e) ==> d == e
  }

  ghost predicate Register<W(!new), B(!new)>(
    xor: (W, W) -> W, step: W -> W, at: (B, nat) -> W, feed: (W, B) -> W)
  {
    && Additive(xor, step) && OneToOne(step) && Cancels(xor)
    && FeedsBytes(xor, step, at, feed) && BytesDescend(step, at) && WordsDistinct(xor, at)
  }

  // ----- Turns -----

  lemma {:induction false} StepsXor<W(!new)>(xor: (W, W) -> W, step: W -> W, a: W, b: W, k: nat)
    requires Additive(xor, step)
    ensures Steps(step, xor(a, b), k) == xor(Steps(step, a, k), Steps(step, b, k))
    decreases k
  {
    if k > 0 {
      StepsXor(xor, step, step(a), step(b), k - 1);
    }
  }

  lemma {:induction false} StepsAdd<W>(step: W -> W, c: W, j: nat, k: nat)
    ensures Steps(step, c, j + k) == Steps(step, Steps(step, c, j), k)
    decreases j
  {
    if j > 0 {
      StepsAdd(step, step(c), j - 1, k);
    }
  }

  lemma {:induction false} StepsInjective<W(!new)>(step: W -> W, a: W, b: W, k: nat)
    requires OneToOne(step) && Steps(step, a, k) == Steps(step, b, k)
    ensures a == b
    decreases k
  {
    if k > 0 {
      StepsInjective(step, step(a), step(b), k - 1);
    }
  }

  /** Turning a register that takes in one message bit per turn, low bit first, runs ahead of the
      register that has the whole message word added at once by exactly the bits still to come. */
  lemma {:induction false} SerialRunsAhead<W(!new)>(
    xor: (W, W) -> W, step: W -> W, turn: (W, W) -> W, drop: W -> W, c: W, m: W, k: nat)
    requires forall c, m {:trigger turn(c, m)} :: xor(turn(c, m), drop(m)) == step(xor(c, m))
    ensures xor(Serial(turn, drop, c, m, k), Steps(drop, m, k)) == Steps(step, xor(c, m), k)
    decreases k
  {
    if k > 0 {
      SerialRunsAhead(xor, step, turn, drop, turn(c, m), drop(m), k - 1);
    }
  }

  function Serial<W>(turn: (W, W) -> W, drop: W -> W, c: W, m: W, k: nat): W
    decreases k, c
  {
    if k == 0 then c else Serial(turn, drop, turn(c, m), drop(m), k - 1)
  }

  // ----- Messages -----

  lemma {:induction false} FoldConcat<W, B>(feed: (W, B) -> W, c: W, a: seq<B>, b: seq<B>)
    ensures Fold(feed, c, a + b) == Fold(feed, Fold(feed, c, a), b)
    decreases |a|
  {
    if a == [] {
      assert a + b == b;
    } else {
      assert (a + b)[1..] == a[1..] + b;
      FoldConcat(feed, feed(c, a[0]), a[1..], b);
    }
  }

  lemma FoldNext<W, B>(feed: (W, B) -> W, c: W, data: seq<B>, i: nat)
    requires i < |data|
    ensures Fold(feed, c, data[..i + 1]) == feed(Fold(feed, c, data[..i]), data[i])
  {
    assert data[..i + 1] == data[..i] + [data[i]];
    FoldConcat(feed, c, data[..i], [data[i]]);
  }

  lemma {:induction false} FoldInjective<W(!new), B(!new)>(
    xor: (W, W) -> W, step: W -> W, at: (B, nat) -> W, feed: (W, B) -> W, c: W, d: W, data: seq<B>)
    requires Register(xor, step, at, feed) && Fold(feed, c, data) == Fold(feed, d, data)
    ensures c == d
    decreases |data|
  {
    if data != [] {
      var b := data[0];
      FoldInjective(xor, step, at, feed, feed(c, b), feed(d, b), data[1..]);
      StepsInjective(step, xor(c, at(b, 0)), xor(d, at(b, 0)), 8);
    }
  }

  lemma FeedAfter<W(!new), B(!new)>(
    xor: (W, W) -> W, step: W -> W, at: (B, nat) -> W, feed: (W, B) -> W, y: W, b: B, i: nat)
    requires Register(xor, step, at, feed) && i <= 3
    ensures feed(Steps(step, y, 8 * i), b) == Steps(step, xor(y, at(b, i)), 8 * (i + 1))
  {
    Descends(step, at, b, i);
    StepsXor(xor, step, y, at(b, i), 8 * i);
    StepsAdd(step, xor(y, at(b, i)), 8 * i, 8);
  }

  lemma {:induction false} Descends<W, B(!new)>(step: W -> W, at: (B, nat) -> W, b: B, i: nat)
    requires BytesDescend(step, at) && i <= 3
    ensures Steps(step, at(b, i), 8 * i) == at(b, 0)
  {
    if i > 0 {
      assert Steps(step, at(b, i - 1 + 1), 8) == at(b, i - 1);
      Descends(step, at, b, i - 1);
      StepsAdd(step, at(b, i), 8, 8 * (i - 1));
    }
  }

  /** Four bytes are absorbed as one word and thirty-two turns. */
  lemma FourBytes<W(!new), B(!new)>(
    xor: (W, W) -> W, step: W -> W, at: (B, nat) -> W, feed: (W, B) -> W, c: W, d: seq<B>)
    requires Register(xor, step, at, feed) && |d| == 4
    ensures Fold(feed, c, d) == Steps(step, Absorb(xor, at, c, d), 32)
  {
    var y0 := xor(c, at(d[0], 0));
    var y1 := xor(y0, at(d[1], 1));
    var y2 := xor(y1, at(d[2], 2));
    FeedAfter(xor, step, at, feed, c, d[0], 0);
    FeedAfter(xor, step, at, feed, y0, d[1], 1);
    FeedAfter(xor, step, at, feed, y1, d[2], 2);
    FeedAfter(xor, step, at, feed, y2, d[3], 3);
    assert Steps(step, c, 8 * 0) == c;
    FoldFour(feed, c, d);
  }

  lemma FoldFour<W, B>(feed: (W, B) -> W, c: W, d: seq<B>)
    requires |d| == 4
    ensures Fold(feed, c, d) == feed(feed(feed(feed(c, d[0]), d[1]), d[2]), d[3])
  {
    assert d == [d[0]] + ([d[1]] + ([d[2]] + [d[3]]));
    FoldConcat(feed, c, [d[0]], [d[1]] + ([d[2]] + [d[3]]));
    FoldConcat(feed, feed(c, d[0]), [d[1]], [d[2]] + [d[3]]);
    FoldConcat(feed, feed(feed(c, d[0]), d[1]), [d[2]], [d[3]]);
  }

  lemma WordRunInjective<W(!new), B(!new)>(
    xor: (W, W) -> W, step: W -> W, at: (B, nat) -> W, feed: (W, B) -> W, c: W, d: seq<B>, e: seq<B>)
    requires Register(xor, step, at, feed)
    requires |d| == |e| == 4 && Fold(feed, c, d) == Fold(feed, c, e)
    ensures d == e
  {
    FourBytes(xor, step, at, feed, c, d);
    FourBytes(xor, step, at, feed, c, e);
    StepsInjective(step, Absorb(xor, at, c, d), Absorb(xor, at, c, e), 32);
  }

  lemma ShortRunInjective<W(!new), B(!new)>(
    xor: (W, W) -> W, step: W -> W, at: (B, nat) -> W, feed: (W, B) -> W,
    c: W, d: seq<B>, e: seq<B>, pad: B)
    requires Register(xor, step, at, feed)
    requires |d| == |e| <= 4 && Fold(feed, c, d) == Fold(feed, c, e)
    ensures d == e
    decreases 4 - |d|
  {
    if |d| == 4 {
      WordRunInjective(xor, step, at, feed, c, d, e);
    } else {
      FoldConcat(feed, c, d, [pad]);
      FoldConcat(feed, c, e, [pad]);
      ShortRunInjective(xor, step, at, feed, c, d + [pad], e + [pad], pad);
      assert d == (d + [pad])[..|d|] && e == (e + [pad])[..|e|];
    }
  }

  /** `a` and `b` have one length and agree outside one run of at most four symbols. */
  ghost predicate BurstApart<B>(a: seq<B>, b: seq<B>, at: nat, width: nat) {
    && width <= 4 && at + width <= |a| == |b|
    && a[..at] == b[..at] && a[at + width..] == b[at + width..]
  }

  /** No burst of up to four bytes goes unnoticed by the register. */
  lemma BurstChangesRegister<W(!new), B(!new)>(
    xor: (W, W) -> W, step: W -> W, at: (B, nat) -> W, feed: (W, B) -> W,
    c: W, a: seq<B>, b: seq<B>, start: nat, width: nat)
    requires Register(xor, step, at, feed)
    requires BurstApart(a, b, start, width) && Fold(feed, c, a) == Fold(feed, c, b)
    ensures a == b
  {
    if width > 0 {
      var p, s := a[..start], a[start + width..];
      var d, e := a[start..start + width], b[start..start + width];
      assert a == p + (d + s) && b == p + (e + s);
      FoldConcat(feed, c, p, d + s);
      FoldConcat(feed, c, p, e + s);
      FoldConcat(feed, Fold(feed, c, p), d, s);
      FoldConcat(feed, Fold(feed, c, p), e, s);
      FoldInjective(xor, step, at, feed, Fold(feed, Fold(feed, c, p), d), Fold(feed, Fold(feed, c, p), e), s);
      ShortRunInjective(xor, step, at, feed, Fold(feed, c, p), d, e, a[start]);
    } else {
      assert a == a[..start] + a[start..] && b == b[..start] + b[start..];
    }
  }

  // ----- Messages that carry their own checksum as a footer -----

  /** The last four symbols, read as a word, are the published value of the register over the rest. */
  predicate Sealed<W(==), B>(feed: (W, B) -> W, word: seq<B> -> W, publish: W -> W, seed: W, image: seq<B>) {
    |image| >= 4 && word(image[|image| - 4..]) == publish(Fold(feed, seed, image[..|image| - 4]))
  }

  /** Four symbols act on the register as the word that they spell. */
  ghost predicate Spells<W(!new), B(!new)>(xor: (W, W) -> W, at: (B, nat) -> W, word: seq<B> -> W) {
    forall c, d: seq<B> {:trigger Absorb(xor, at, c, d)} :: |d| == 4 ==> Absorb(xor, at, c, d) == xor(c, word(d))
  }

  /** Adding a word to the register leaves `residue` exactly when the word is the published value. */
  ghost predicate Publishes<W(!new)>(xor: (W, W) -> W, publish: W -> W, residue: W) {
    forall c, w {:trigger publish(c), xor(c, w)} :: w == publish(c) <==> xor(c, w) == residue
  }

  lemma FooterAbsorbed<W(!new), B(!new)>(
    xor: (W, W) -> W, step: W -> W, at: (B, nat) -> W, feed: (W, B) -> W, word: seq<B> -> W, c: W, footer: seq<B>)
    requires Register(xor, step, at, feed) && Spells(xor, at, word) && |footer| == 4
    ensures Fold(feed, c, footer) == Steps(step, xor(c, word(footer)), 32)
  {
    FourBytes(xor, step, at, feed, c, footer);
  }

  lemma ResidueOnly<W(!new)>(xor: (W, W) -> W, step: W -> W, publish: W -> W, residue: W, c: W, w: W)
    requires OneToOne(step) && Publishes(xor, publish, residue)
    ensures w == publish(c) <==> Steps(step, xor(c, w), 32) == Steps(step, residue, 32)
  {
    if Steps(step, xor(c, w), 32) == Steps(step, residue, 32) {
      StepsInjective(step, xor(c, w), residue, 32);
    }
  }

  /** A footer matches exactly when the register over message and footer ends at one fixed value. */
  lemma SealedIsResidue<W(!new), B(!new)>(
    xor: (W, W) -> W, step: W -> W, at: (B, nat) -> W, feed: (W, B) -> W,
    word: seq<B> -> W, publish: W -> W, residue: W, seed: W, image: seq<B>)
    requires Register(xor, step, at, feed) && Spells(xor, at, word) && Publishes(xor, publish, residue)
    requires |image| >= 4
    ensures Sealed(feed, word, publish, seed, image) <==> Fold(feed, seed, image) == Steps(step, residue, 32)
  {
    var body, footer := image[..|image| - 4], image[|image| - 4..];
    var c := Fold(feed, seed, body);
    assert image == body + footer;
    FoldConcat(feed, seed, body, footer);
    FooterAbsorbed(xor, step, at, feed, word, c, footer);
    ResidueOnly(xor, step, publish, residue, c, word(footer));
  }

  /** No change confined to four consecutive symbols of a sealed image leaves it sealed, wherever
      the change falls: in the body, in the footer or across their border. */
  lemma SealBreaks<W(!new), B(!new)>(
    xor: (W, W) -> W, step: W -> W, at: (B, nat) -> W, feed: (W, B) -> W,
    word: seq<B> -> W, publish: W -> W, residue: W, seed: W,
    a: seq<B>, b: seq<B>, start: nat, width: nat)
    requires Register(xor, step, at, feed) && Spells(xor, at, word) && Publishes(xor, publish, residue)
    requires Sealed(feed, word, publish, seed, a) && BurstApart(a, b, start, width) && a != b
    ensures !Sealed(feed, word, publish, seed, b)
  {
    SealedIsResidue(xor, step, at, feed, word, publish, residue, seed, a);
    SealedIsResidue(xor, step, at, feed, word, publish, residue, seed, b);
    if Sealed(feed, word, publish, seed, b) {
      BurstChangesRegister(xor, step, at, feed, seed, a, b, start, width);
    }
  }
}
