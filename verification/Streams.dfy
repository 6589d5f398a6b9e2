/** A stream cut into consecutive blocks of 256 elements by some block parser. */
module Streams {
  import opened Common
  import opened Words
  import opened Arith

  const BLOCK := 256

  /** Size in bytes and values of the block at the front of a byte string. */
  type Parser = seq<Byte> -> Option<(nat, seq<Bits>)>

  /** A parsed block takes at least one byte and holds 256 values. */
  ghost predicate Sound(f: Parser) {
    forall s :: f(s).Some? ==> 0 < f(s).value.0 <= |s| && |f(s).value.1| == BLOCK
  }

  /** What follows a block does not change it. */
  ghost predicate Local(f: Parser) {
    forall s, rest {:trigger f(s + rest)} :: f(s).Some? ==> f(s + rest) == f(s)
  }

  /** The values of nb elements: whole blocks, the last one cut to what is left, and
      nothing after them. */
  ghost function Stream(f: Parser, src: seq<Byte>, nb: nat): (v: Option<seq<Bits>>)
    requires Sound(f)
    ensures v.Some? ==> |v.value| == nb
    decreases nb
  {
    if nb == 0 then
      if |src| == 0 then Some([]) else None
    else
      match f(src)
      case None => None
      case Some((size, values)) =>
        var n := if nb < BLOCK then nb else BLOCK;
        var rest := Stream(f, src[size..], nb - n);
        if rest.None? then None else Some(values[..n] + rest.value)
  }

  /** What f parses, g parses alike. */
  ghost predicate Refines(f: Parser, g: Parser) {
    forall s :: f(s).Some? ==> g(s) == f(s)
  }

  lemma {:induction false} StreamRefines(f: Parser, g: Parser, src: seq<Byte>, nb: nat)
    requires Sound(f) && Sound(g) && Refines(f, g) && Stream(f, src, nb).Some?
    ensures Stream(g, src, nb) == Stream(f, src, nb)
    decreases nb
  {
    if nb > 0 {
      var n := if nb < BLOCK then nb else BLOCK;
      StreamRefines(f, g, src[f(src).value.0..], nb - n);
    }
  }

  lemma StreamBlock(f: Parser, src: seq<Byte>, nb: nat)
    requires Sound(f) && nb >= BLOCK && f(src).Some?
    requires Stream(f, src[f(src).value.0..], nb - BLOCK).Some?
    ensures Stream(f, src, nb)
         == Some(f(src).value.1 + Stream(f, src[f(src).value.0..], nb - BLOCK).value)
  {
    assert f(src).value.1[..BLOCK] == f(src).value.1;
  }

  /** The first block of a stream and what is left of it. */
  lemma StreamParts(f: Parser, src: seq<Byte>, nb: nat)
    requires Sound(f) && nb > 0 && Stream(f, src, nb).Some?
    ensures f(src).Some?
    ensures var n := if nb < BLOCK then nb else BLOCK;
      var rest := Stream(f, src[f(src).value.0..], nb - n);
      rest.Some? && Stream(f, src, nb).value == f(src).value.1[..n] + rest.value
  {
  }

  lemma StreamFront(f: Parser, src: seq<Byte>, nb: nat)
    requires Sound(f) && nb >= BLOCK && Stream(f, src, nb).Some?
    ensures f(src).Some?
    ensures Stream(f, src[f(src).value.0..], nb - BLOCK).Some?
  {
  }

  lemma LocalAt(f: Parser, s: seq<Byte>, rest: seq<Byte>)
    requires Local(f) && f(s).Some?
    ensures f(s + rest) == f(s)
  {
  }

  lemma SoundAt(f: Parser, s: seq<Byte>)
    requires Sound(f)
    ensures f(s).Some? ==> 0 < f(s).value.0 <= |s| && |f(s).value.1| == BLOCK
  {
  }

  lemma StreamEmpty(f: Parser, src: seq<Byte>)
    requires Sound(f) && Stream(f, src, 0).Some?
    ensures src == [] && Stream(f, src, 0).value == []
  {
  }

  /** Streams of whole blocks concatenate. */
  lemma {:induction false} StreamAppend(f: Parser, a: seq<Byte>, m: nat, b: seq<Byte>, nb: nat)
    requires Sound(f) && Local(f) && m % BLOCK == 0
    requires Stream(f, a, m).Some? && Stream(f, b, nb).Some?
    ensures Stream(f, a + b, m + nb) == Some(Stream(f, a, m).value + Stream(f, b, nb).value)
    decreases m
  {
    hide Local, Stream, Sound;
    if m == 0 {
      StreamEmpty(f, a);
      assert a + b == b;
      assert [] + Stream(f, b, nb).value == Stream(f, b, nb).value;
    } else {
      SoundAt(f, a);
      StreamFront(f, a, m);
      LocalAt(f, a, b);
      var n := f(a).value.0;
      DropAppend(a, b, n);
      StreamAppend(f, a[n..], m - BLOCK, b, nb);
      StreamBlock(f, a + b, m + nb);
      StreamBlock(f, a, m);
      AppendAssoc(f(a).value.1, Stream(f, a[n..], m - BLOCK).value, Stream(f, b, nb).value);
    }
  }
}
