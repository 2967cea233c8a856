// The algebra of a cyclic checksum over any register type: what makes a checksum
// vanish on a closed message, and why a short burst of errors always changes it.
module Checksum {
  type Byte = bv8

  /**
   * A checksum register: how many bytes it holds, the word of zero bits, shifting one byte out,
   * mixing a word in, a byte put some bytes up in a word, and a word as it lies in memory.
   */
  datatype Register<!T> = Register(
    width: nat,
    zero: T,
    shift: T -> T,
    mix: (T, T) -> T,
    place: (Byte, nat) -> T,
    bytes: T -> seq<Byte>)

  ghost predicate ShiftLaws<T(!new)>(r: Register<T>) {
    && (forall a, b :: r.shift(r.mix(a, b)) == r.mix(r.shift(a), r.shift(b)))
    && (forall a, b :: r.shift(a) == r.shift(b) ==> a == b)
    && r.shift(r.zero) == r.zero
    && (forall b, k: nat :: 0 < k < r.width ==> r.shift(r.place(b, k)) == r.place(b, k - 1))
  }

  ghost predicate CancelLaws<T(!new)>(r: Register<T>) {
    && (forall c, a, b :: r.mix(c, a) == r.mix(c, b) ==> a == b)
    && (forall c, a, b :: r.mix(a, c) == r.mix(b, c) ==> a == b)
    && (forall a :: r.mix(a, a) == r.zero)
  }

  ghost predicate GroupLaws<T(!new)>(r: Register<T>) {
    && (forall a, b, c :: r.mix(r.mix(a, b), c) == r.mix(a, r.mix(b, c)))
    && (forall a :: r.mix(a, r.zero) == a)
  }

  ghost predicate MemoryLaws<T(!new)>(r: Register<T>) {
    && (forall a :: |r.bytes(a)| == r.width && Word(r, r.bytes(a)) == a)
    && (forall s :: |s| == r.width ==> r.bytes(Word(r, s)) == s)
  }

  // The register after a message, one byte mixed in and shifted out at a time.
  function Feed<T>(r: Register<T>, c: T, data: seq<Byte>): T {
    if data == [] then c
    else r.shift(r.mix(Feed(r, c, data[..|data| - 1]), r.place(data[|data| - 1], 0)))
  }

  // The bytes of a word mixed in, each in its own place.
  function Mixed<T>(r: Register<T>, c: T, s: seq<Byte>): T {
    if s == [] then c
    else r.mix(Mixed(r, c, s[..|s| - 1]), r.place(s[|s| - 1], |s| - 1))
  }

  function Word<T>(r: Register<T>, s: seq<Byte>): T {
    Mixed(r, r.zero, s)
  }

  function Shifts<T>(r: Register<T>, n: nat, c: T): T {
    if n == 0 then c else Shifts(r, n - 1, r.shift(c))
  }

  lemma {:induction false} MixedWord<T(!new)>(r: Register<T>, c: T, s: seq<Byte>)
    requires GroupLaws(r)
    ensures Mixed(r, c, s) == r.mix(c, Word(r, s))
  {
    if s != [] { MixedWord(r, c, s[..|s| - 1]); }
  }

  lemma {:induction false} FeedConcat<T>(r: Register<T>, c: T, a: seq<Byte>, b: seq<Byte>)
    ensures Feed(r, c, a + b) == Feed(r, Feed(r, c, a), b)
  {
    if b == [] {
      assert a + b == a;
    } else {
      assert (a + b)[..|a + b| - 1] == a + b[..|b| - 1];
      FeedConcat(r, c, a, b[..|b| - 1]);
    }
  }

  lemma {:induction false} ShiftsLinear<T(!new)>(r: Register<T>, n: nat, a: T, b: T)
    requires ShiftLaws(r)
    ensures Shifts(r, n, r.mix(a, b)) == r.mix(Shifts(r, n, a), Shifts(r, n, b))
  {
    if n > 0 { ShiftsLinear(r, n - 1, r.shift(a), r.shift(b)); }
  }

  lemma {:induction false} ShiftsInjective<T(!new)>(r: Register<T>, n: nat, a: T, b: T)
    requires ShiftLaws(r) && Shifts(r, n, a) == Shifts(r, n, b)
    ensures a == b
  {
    if n > 0 { ShiftsInjective(r, n - 1, r.shift(a), r.shift(b)); }
  }

  lemma {:induction false} ShiftsSnoc<T>(r: Register<T>, n: nat, c: T)
    ensures Shifts(r, n + 1, c) == r.shift(Shifts(r, n, c))
  {
    if n > 0 { ShiftsSnoc(r, n - 1, r.shift(c)); }
  }

  lemma {:induction false} ShiftsPlaced<T(!new)>(r: Register<T>, b: Byte, k: nat)
    requires ShiftLaws(r) && k < r.width
    ensures Shifts(r, k, r.place(b, k)) == r.place(b, 0)
  {
    if k > 0 { ShiftsPlaced(r, b, k - 1); }
  }

  lemma {:induction false} ShiftsZero<T(!new)>(r: Register<T>, n: nat)
    requires ShiftLaws(r)
    ensures Shifts(r, n, r.zero) == r.zero
  {
    if n > 0 { ShiftsZero(r, n - 1); }
  }

  /** Bytes shifted in one after the other are their word mixed in at once. */
  lemma {:induction false} FeedMixed<T(!new)>(r: Register<T>, c: T, s: seq<Byte>)
    requires ShiftLaws(r) && |s| <= r.width
    ensures Feed(r, c, s) == Shifts(r, |s|, Mixed(r, c, s))
  {
    if s != [] {
      var init, b, k := s[..|s| - 1], s[|s| - 1], |s| - 1;
      var m := Mixed(r, c, init);
      FeedMixed(r, c, init);
      ShiftsPlaced(r, b, k);
      ShiftsLinear(r, k, m, r.place(b, k));
      ShiftsSnoc(r, k, r.mix(m, r.place(b, k)));
    }
  }

  lemma FeedWord<T(!new)>(r: Register<T>, c: T, s: seq<Byte>)
    requires ShiftLaws(r) && GroupLaws(r) && |s| == r.width
    ensures Feed(r, c, s) == Shifts(r, r.width, r.mix(c, Word(r, s)))
  {
    FeedMixed(r, c, s);
    MixedWord(r, c, s);
  }

  ghost predicate Lawful<T(!new)>(r: Register<T>) {
    ShiftLaws(r) && CancelLaws(r) && GroupLaws(r) && MemoryLaws(r)
  }

  // A register and a word of input leave nothing exactly when they are equal.
  lemma Vanishes<T(!new)>(r: Register<T>, d: T, w: T)
    requires ShiftLaws(r) && CancelLaws(r)
    ensures Shifts(r, r.width, r.mix(d, w)) == r.zero <==> w == d
  {
    ShiftsZero(r, r.width);
    assert r.mix(d, d) == r.zero;
    if Shifts(r, r.width, r.mix(d, w)) == r.zero {
      ShiftsInjective(r, r.width, r.mix(d, w), r.zero);
    }
  }

  /** The check value of a message vanishes exactly when its tail is the checksum of the rest. */
  lemma Residue<T(!new)>(r: Register<T>, c: T, data: seq<Byte>, tail: seq<Byte>)
    requires Lawful(r) && |tail| == r.width
    ensures Feed(r, c, data + tail) == r.zero <==> tail == r.bytes(Feed(r, c, data))
  {
    var d := Feed(r, c, data);
    FeedConcat(r, c, data, tail);
    FeedWord(r, d, tail);
    Vanishes(r, d, Word(r, tail));
  }

  lemma {:induction false} FeedInjective<T(!new)>(r: Register<T>, c: T, d: T, data: seq<Byte>)
    requires ShiftLaws(r) && CancelLaws(r) && Feed(r, c, data) == Feed(r, d, data)
    ensures c == d
  {
    if data != [] { FeedInjective(r, c, d, data[..|data| - 1]); }
  }

  lemma FeedWordInjective<T(!new)>(r: Register<T>, c: T, v: seq<Byte>, w: seq<Byte>)
    requires Lawful(r) && |v| == |w| == r.width && Feed(r, c, v) == Feed(r, c, w)
    ensures v == w
  {
    FeedWord(r, c, v);
    FeedWord(r, c, w);
    ShiftsInjective(r, r.width, r.mix(c, Word(r, v)), r.mix(c, Word(r, w)));
  }

  lemma BurstParts<T(!new)>(r: Register<T>, c: T, pre: seq<Byte>, v: seq<Byte>, w: seq<Byte>, post: seq<Byte>)
    requires Lawful(r) && |v| == |w| == r.width
    requires Feed(r, c, (pre + v) + post) == Feed(r, c, (pre + w) + post)
    ensures v == w
  {
    FeedConcat(r, c, pre + v, post);
    FeedConcat(r, c, pre + w, post);
    FeedInjective(r, Feed(r, c, pre + v), Feed(r, c, pre + w), post);
    FeedConcat(r, c, pre, v);
    FeedConcat(r, c, pre, w);
    FeedWordInjective(r, Feed(r, c, pre), v, w);
  }

  lemma SplitAround(f: seq<Byte>, g: seq<Byte>, k: nat, n: nat)
    requires |f| == |g| && k + n <= |f|
    requires forall i :: 0 <= i < |f| && !(k <= i < k + n) ==> f[i] == g[i]
    ensures f == (f[..k] + f[k..k + n]) + f[k + n..]
    ensures g == (f[..k] + g[k..k + n]) + f[k + n..]
  {}

  /**
   * Any corruption confined to as many consecutive bytes as the register holds changes the
   * checksum, so at most one of two messages that differ only there can pass the check.
   */
  lemma Burst<T(!new)>(r: Register<T>, c: T, f: seq<Byte>, g: seq<Byte>, k: nat)
    requires Lawful(r) && |f| == |g| && k + r.width <= |f|
    requires forall i :: 0 <= i < |f| && !(k <= i < k + r.width) ==> f[i] == g[i]
    ensures Feed(r, c, f) == Feed(r, c, g) <==> f == g
  {
    if Feed(r, c, f) == Feed(r, c, g) {
      SplitAround(f, g, k, r.width);
      BurstParts(r, c, f[..k], f[k..k + r.width], g[k..k + r.width], f[k + r.width..]);
    }
  }
}
