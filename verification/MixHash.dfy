/**
 The shape of the hash, over any type of words: a state is mixed with each block
 and finally stirred.  As long as every word operation is a permutation, the hash
 is a bijection in each block and in the tail.
 */
module MixHash {
  import opened Prelude

  /** Multiply by `m`, fold by 24, 13 and 15 bits, and exclusive or. */
  datatype Ops<!W> = Ops(mul: W -> W, x24: W -> W, x13: W -> W, x15: W -> W, xor: (W, W) -> W)

  function Scramble<W>(f: Ops<W>, k: W): W {
    f.mul(f.x24(f.mul(k)))
  }

  /** One block: `h = h * m ^ k`. */
  function Mix<W>(f: Ops<W>, h: W, k: W): W {
    f.xor(f.mul(h), Scramble(f, k))
  }

  /** The final avalanche. */
  function Finish<W>(f: Ops<W>, h: W): W {
    f.x15(f.mul(f.x13(h)))
  }

  /** The state after mixing in a sequence of blocks. */
  function Blocks<W>(f: Ops<W>, h: W, words: seq<W>): W {
    if |words| == 0 then h
    else Mix(f, Blocks(f, h, words[..|words| - 1]), words[|words| - 1])
  }

  function Tail<W>(f: Ops<W>, h: W, tail: Option<W>): W {
    match tail
    case None => h
    case Some(t) => f.mul(f.xor(h, t))
  }

  function HashWords<W>(f: Ops<W>, h: W, words: seq<W>, tail: Option<W>): W {
    Finish(f, Tail(f, Blocks(f, h, words), tail))
  }

  /** One block and a tail, written out. */
  lemma OneBlockHash<W>(f: Ops<W>, h: W, k: W, t: W)
    ensures HashWords(f, h, [k], Some(t)) ==
            f.x15(f.mul(f.x13(f.mul(f.xor(f.xor(f.mul(h), f.mul(f.x24(f.mul(k)))), t)))))
  {
    var none: seq<W> := [];
    assert [k][..0] == none && Blocks(f, h, none) == h;
    assert Blocks(f, h, [k]) == Mix(f, Blocks(f, h, none), k);
  }

  // ----------------------------------------------------- every step inverts

  ghost predicate Inverse<W(!new)>(f: W -> W, g: W -> W) {
    forall x :: g(f(x)) == x && f(g(x)) == x
  }

  ghost predicate Cancels<W(!new)>(xor: (W, W) -> W) {
    forall a, b :: xor(xor(a, b), b) == a && xor(xor(a, b), a) == b && xor(a, xor(b, a)) == b
  }

  /** The operations of `g` undo those of `f`. */
  ghost predicate Inverses<W(!new)>(f: Ops<W>, g: Ops<W>) {
    && Inverse(f.mul, g.mul) && Inverse(f.x24, g.x24) && Inverse(f.x13, g.x13) && Inverse(f.x15, g.x15)
    && Cancels(f.xor) && g.xor == f.xor
  }

  function Unscramble<W>(g: Ops<W>, k: W): W {
    g.mul(g.x24(g.mul(k)))
  }

  lemma ScrambleInverse<W(!new)>(f: Ops<W>, g: Ops<W>, k: W)
    requires Inverses(f, g)
    ensures Unscramble(g, Scramble(f, k)) == k && Scramble(f, Unscramble(g, k)) == k
  {
    assert g.mul(f.mul(f.x24(f.mul(k)))) == f.x24(f.mul(k));
    assert g.x24(f.x24(f.mul(k))) == f.mul(k);
    assert f.mul(g.mul(g.x24(g.mul(k)))) == g.x24(g.mul(k));
    assert f.x24(g.x24(g.mul(k))) == g.mul(k);
  }

  function Unfinish<W>(g: Ops<W>, x: W): W {
    g.x13(g.mul(g.x15(x)))
  }

  lemma FinishInverse<W(!new)>(f: Ops<W>, g: Ops<W>, h: W)
    requires Inverses(f, g)
    ensures Unfinish(g, Finish(f, h)) == h && Finish(f, Unfinish(g, h)) == h
  {
    assert g.x15(f.x15(f.mul(f.x13(h)))) == f.mul(f.x13(h));
    assert g.mul(f.mul(f.x13(h))) == f.x13(h);
    assert f.x13(g.x13(g.mul(g.x15(h)))) == g.mul(g.x15(h));
    assert f.mul(g.mul(g.x15(h))) == g.x15(h);
  }

  function Unmix<W>(f: Ops<W>, g: Ops<W>, x: W, k: W): W {
    g.mul(f.xor(x, Scramble(f, k)))
  }

  /** For a fixed block, mixing is a permutation of the state. */
  lemma MixInverse<W(!new)>(f: Ops<W>, g: Ops<W>, h: W, k: W)
    requires Inverses(f, g)
    ensures Unmix(f, g, Mix(f, h, k), k) == h && Mix(f, Unmix(f, g, h, k), k) == h
  {
    assert f.xor(f.xor(f.mul(h), Scramble(f, k)), Scramble(f, k)) == f.mul(h);
    assert f.xor(f.xor(h, Scramble(f, k)), Scramble(f, k)) == h;
  }

  function Untail<W>(g: Ops<W>, x: W, tail: Option<W>): W {
    match tail
    case None => x
    case Some(t) => g.xor(g.mul(x), t)
  }

  lemma TailInverse<W(!new)>(f: Ops<W>, g: Ops<W>, h: W, tail: Option<W>)
    requires Inverses(f, g)
    ensures Untail(g, Tail(f, h, tail), tail) == h && Tail(f, Untail(g, h, tail), tail) == h
  {
    if tail.Some? {
      assert f.xor(f.xor(h, tail.value), tail.value) == h;
      assert f.xor(f.xor(g.mul(h), tail.value), tail.value) == g.mul(h);
    }
  }

  // -------------------------------------------------- separation, on words

  /** Once the states differ they stay different, because the later blocks are equal. */
  lemma {:induction false} StayDifferent<W(!new)>(f: Ops<W>, g: Ops<W>, h: W, a: seq<W>, j: nat, w: W, n: nat)
    requires Inverses(f, g) && j < n <= |a| && a[j] != w
    ensures Blocks(f, h, a[..n]) != Blocks(f, h, a[j := w][..n])
  {
    var b := a[j := w];
    assert a[..n][..n - 1] == a[..n - 1] && b[..n][..n - 1] == b[..n - 1];
    if n == j + 1 {
      assert a[..j] == b[..j];
      ScrambleInverse(f, g, a[j]);
      ScrambleInverse(f, g, w);
      var x := f.mul(Blocks(f, h, a[..j]));
      assert f.xor(f.xor(x, Scramble(f, a[j])), x) == Scramble(f, a[j]);
      assert f.xor(f.xor(x, Scramble(f, w)), x) == Scramble(f, w);
    } else {
      StayDifferent(f, g, h, a, j, w, n - 1);
      MixInverse(f, g, Blocks(f, h, a[..n - 1]), a[n - 1]);
      MixInverse(f, g, Blocks(f, h, b[..n - 1]), a[n - 1]);
    }
  }

  /** The hash depends injectively on each block. */
  lemma WordSeparation<W(!new)>(f: Ops<W>, g: Ops<W>, h: W, a: seq<W>, tail: Option<W>, j: nat, w: W)
    requires Inverses(f, g) && j < |a| && a[j] != w
    ensures HashWords(f, h, a, tail) != HashWords(f, h, a[j := w], tail)
  {
    var b := a[j := w];
    assert a[..|a|] == a && b[..|a|] == b;
    StayDifferent(f, g, h, a, j, w, |a|);
    TailInverse(f, g, Blocks(f, h, a), tail);
    TailInverse(f, g, Blocks(f, h, b), tail);
    FinishInverse(f, g, Tail(f, Blocks(f, h, a), tail));
    FinishInverse(f, g, Tail(f, Blocks(f, h, b), tail));
  }

  /** ... and injectively on the tail. */
  lemma TailWordSeparation<W(!new)>(f: Ops<W>, g: Ops<W>, h: W, words: seq<W>, s: W, t: W)
    requires Inverses(f, g) && s != t
    ensures HashWords(f, h, words, Some(s)) != HashWords(f, h, words, Some(t))
  {
    var x := Blocks(f, h, words);
    assert f.xor(f.xor(x, s), x) == s && f.xor(f.xor(x, t), x) == t;
    assert g.mul(f.mul(f.xor(x, s))) == f.xor(x, s) && g.mul(f.mul(f.xor(x, t))) == f.xor(x, t);
    FinishInverse(f, g, f.mul(f.xor(x, s)));
    FinishInverse(f, g, f.mul(f.xor(x, t)));
  }

  // ------------------------------------------------- surjectivity, on words

  /** The state before a sequence of blocks, given the state after it. */
  function Rewind<W>(f: Ops<W>, g: Ops<W>, h: W, words: seq<W>): W
    decreases |words|
  {
    if |words| == 0 then h
    else Rewind(f, g, Unmix(f, g, h, words[|words| - 1]), words[..|words| - 1])
  }

  lemma {:induction false} RewindInverse<W(!new)>(f: Ops<W>, g: Ops<W>, h: W, words: seq<W>)
    requires Inverses(f, g)
    ensures Blocks(f, Rewind(f, g, h, words), words) == h
    decreases |words|
  {
    if |words| != 0 {
      var n := |words| - 1;
      RewindInverse(f, g, Unmix(f, g, h, words[n]), words[..n]);
      MixInverse(f, g, h, words[n]);
    }
  }

  lemma {:induction false} BlocksConcat<W>(f: Ops<W>, h: W, a: seq<W>, b: seq<W>)
    ensures Blocks(f, h, a + b) == Blocks(f, Blocks(f, h, a), b)
    decreases |b|
  {
    if b == [] {
      assert a + b == a;
    } else {
      var n := |b| - 1;
      BlocksConcat(f, h, a, b[..n]);
      assert (a + b)[..|a + b| - 1] == a + b[..n];
    }
  }

  /** The block that takes state `h` to state `x`. */
  lemma OneBlock<W(!new)>(f: Ops<W>, g: Ops<W>, h: W, x: W) returns (w: W)
    requires Inverses(f, g)
    ensures Mix(f, h, w) == x
  {
    w := Unscramble(g, f.xor(x, f.mul(h)));
    ScrambleInverse(f, g, f.xor(x, f.mul(h)));
    assert f.xor(f.mul(h), f.xor(x, f.mul(h))) == x;
  }

  /** Whatever the other blocks are, some value of block `j` gives the target hash. */
  lemma WordReaches<W(!new)>(f: Ops<W>, g: Ops<W>, h: W, a: seq<W>, tail: Option<W>, j: nat, target: W) returns (w: W)
    requires Inverses(f, g) && j < |a|
    ensures HashWords(f, h, a[j := w], tail) == target
  {
    var last := Untail(g, Unfinish(g, target), tail);
    var after := Rewind(f, g, last, a[j + 1..]);
    w := OneBlock(f, g, Blocks(f, h, a[..j]), after);
    var b := a[j := w];
    assert b == a[..j] + [w] + a[j + 1..];
    assert ([w])[..0] == [];
    BlocksConcat(f, h, a[..j] + [w], a[j + 1..]);
    BlocksConcat(f, h, a[..j], [w]);
    RewindInverse(f, g, last, a[j + 1..]);
    assert Blocks(f, h, b) == last;
    TailInverse(f, g, Unfinish(g, target), tail);
    FinishInverse(f, g, target);
  }
}
