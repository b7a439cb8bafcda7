/** The keyed substitution decoder shared by the two loaders
    (post-template.php line 667, class-https.php line 124). The input is
    percent-decoded; then the byte at position `i` is looked up in the
    second half of the 190-character table `$S`, moved back by a shift that
    depends only on `key + i`, and replaced by the first-half entry found
    there.

    The loop is written for any 190-character table `t`: what it does with
    positions and keys holds whatever the table holds. What depends on the
    actual literal (printable output, injectivity, the inverse encoder) is
    stated for `Table()`. */
module Substitution {
  import opened Wrappers
  import opened Php
  import opened Alphabet
  import opened UrlCodec

  /** The key the post-template.php loader hands to its closure. */
  const PostTemplateKey := 3866

  /** A table the size of the literal `$S`. */
  predicate WellSized(t: string)
  {
    |t| == 2 * Size
  }

  /** `abs(fmod($k + $i, 95))`: the shift used at position `i`. */
  function Shift(key: int, i: int): (r: nat)
    ensures r < Size
  {
    Abs(FMod(key + i, Size))
  }

  /** The shift is the remainder of `|key + i|` divided by 95. */
  lemma ShiftIsRemainder(key: int, i: int)
    ensures Shift(key, i) == Abs(key + i) % Size
  {
    FModRemainder(key + i, Size);
  }

  /** The shift depends only on `key + i`. */
  lemma ShiftSum(key: int, i: int, d: int)
    ensures Shift(key + d, i - d) == Shift(key, i)
  {
    assert (key + d) + (i - d) == key + i;
  }

  /** For a non-negative key the shift repeats with period 95. */
  lemma ShiftPeriodic(key: int, i: int)
    requires key >= 0 && i >= 0
    ensures Shift(key + Size, i) == Shift(key, i)
  {
  }

  /** Index `j` of a table half moved back by `sh` places, wrapping
      around once: the loop's `if ($r < 0) $r += 95` step. */
  function Back(j: int, sh: int): (r: int)
    requires 0 <= j < Size && 0 <= sh < Size
    ensures 0 <= r < Size
  {
    if j - sh < 0 then j - sh + Size else j - sh
  }

  /** Index `p` of a table half moved forward by `sh` places, wrapping
      around once. */
  function Forward(p: int, sh: int): (r: int)
    requires 0 <= p < Size && 0 <= sh < Size
    ensures 0 <= r < Size
  {
    if p + sh >= Size then p + sh - Size else p + sh
  }

  /** One correction suffices: moving back and wrapping once is the
      remainder modulo 95, and moving forward undoes it. */
  lemma BackForward(j: int, sh: int)
    requires 0 <= j < Size && 0 <= sh < Size
    ensures Back(j, sh) == (j - sh) % Size
    ensures Forward(j, sh) == (j + sh) % Size
    ensures Forward(Back(j, sh), sh) == j && Back(Forward(j, sh), sh) == j
  {
  }

  /** The table index the loop reads for input byte `c` under shift `sh`:
      `strpos($S, $c, 95) - 95` (with `false` counting as 0), minus the
      shift, plus 95 once if that went negative. A byte found in the
      second half always lands in the first half after that one
      correction; a byte not found gives minus the shift. */
  function TableIndex(t: string, c: char, sh: int): (r: int)
    requires WellSized(t) && 0 <= sh < Size
    ensures StrPos(t, c, Size).Some? ==> 0 <= r < Size && r == Back(StrPos(t, c, Size).value - Size, sh)
    ensures StrPos(t, c, Size).None? ==> r == 0 - sh
  {
    var num := AsInt(StrPos(t, c, Size)) - Size;
    var idx := num - sh;
    if idx < 0 then idx + Size else idx
  }

  /** The text the loop appends for input byte `c` under shift `sh`:
      `substr($S, $idx, 1)`, always exactly one character. */
  function Emit(t: string, c: char, sh: int): (r: string)
    requires WellSized(t) && 0 <= sh < Size
    ensures |r| == 1
  {
    Substr1(t, TableIndex(t, c, sh))
  }

  /** The loop's output for percent-decoded input `s`: the text emitted
      for each input byte, in order. */
  function Substitute(t: string, s: string, key: int): (r: string)
    requires WellSized(t)
    ensures |r| == |s|
  {
    if s == [] then [] else Substitute(t, s[..|s| - 1], key) + Emit(t, s[|s| - 1], Shift(key, |s| - 1))
  }

  /** What the closure returns for input `s` and key `key`. */
  function Decode(s: string, key: int): string
  {
    Substitute(Table(), UrlDecode(s), key)
  }

  /** The closure `create_function('$s,$k', ...)` of post-template.php
      line 667: percent-decode the input, then run the loop over the
      table `$S`. (The closure at class-https.php line 124 ends with the
      same two steps, with other variable names.) */
  method DecodeClosure(s: string, k: int) returns (target: string)
    ensures target == Decode(s, k)
  {
    var bytes := UrlDecode(s);
    target := SubstituteLoop(Table(), bytes, k);
  }

  /** The `for` loop of the closure, over a table `t` of the size of `$S`:
      each byte is looked up in the second half, moved back by the shift
      of its position with one correction by 95, and the first-half entry
      there is appended. */
  method SubstituteLoop(t: string, bytes: string, k: int) returns (target: string)
    requires WellSized(t)
    ensures target == Substitute(t, bytes, k)
  {
    target := "";
    var i := 0;
    while i < |bytes|
      invariant 0 <= i <= |bytes|
      invariant target == Substitute(t, bytes[..i], k)
    {
      var c := bytes[i];
      var num := AsInt(StrPos(t, c, Size)) - Size;
      var curKey := Abs(FMod(k + i, Size));
      curKey := num - curKey;
      if curKey < 0 {
        curKey := curKey + Size;
      }
      assert curKey == TableIndex(t, c, Shift(k, i));
      SubstituteStep(t, bytes, k, i);
      target := target + Substr1(t, curKey);
      i := i + 1;
    }
    assert bytes[..i] == bytes;
  }

  /** One more input byte extends the output by what that byte yields. */
  lemma SubstituteStep(t: string, s: string, key: int, i: nat)
    requires WellSized(t) && i < |s|
    ensures Substitute(t, s[..i + 1], key) == Substitute(t, s[..i], key) + Substr1(t, TableIndex(t, s[i], Shift(key, i)))
  {
    assert s[..i + 1][..i] == s[..i];
  }

  /** Output character `i` is what input byte `i` yields under the shift
      of position `i`. */
  lemma {:induction false} SubstituteAt(t: string, s: string, key: int, i: int)
    requires WellSized(t) && 0 <= i < |s|
    ensures [Substitute(t, s, key)[i]] == Emit(t, s[i], Shift(key, i))
  {
    var init := s[..|s| - 1];
    if i < |s| - 1 {
      SubstituteAt(t, init, key, i);
      assert init[i] == s[i];
    }
  }

  /** Decoding a concatenation: the second part is decoded with the key
      advanced by the length of the first. */
  lemma {:induction false} SubstituteAppend(t: string, a: string, b: string, key: int)
    requires WellSized(t)
    ensures Substitute(t, a + b, key) == Substitute(t, a, key) + Substitute(t, b, key + |a|)
    decreases |b|
  {
    if b == [] {
      assert a + b == a;
    } else {
      var init, c := b[..|b| - 1], b[|b| - 1];
      assert b == init + [c];
      assert a + b == (a + init) + [c];
      ShiftSum(key, |a| + |init|, |a|);
      SubstituteSnoc(t, a + init, c, key);
      SubstituteSnoc(t, init, c, key + |a|);
      SubstituteAppend(t, a, init, key);
      ConcatAssoc(Substitute(t, a, key), Substitute(t, init, key + |a|), Emit(t, c, Shift(key + |a|, |init|)));
    }
  }

  lemma ConcatAssoc<T>(x: seq<T>, y: seq<T>, z: seq<T>)
    ensures (x + y) + z == x + (y + z)
  {
  }

  /** Appending one byte appends what that byte yields at its position. */
  lemma SubstituteSnoc(t: string, s: string, c: char, key: int)
    requires WellSized(t)
    ensures Substitute(t, s + [c], key) == Substitute(t, s, key) + Emit(t, c, Shift(key, |s|))
  {
    assert (s + [c])[..|s|] == s;
  }

  /** For a non-negative key, adding 95 to the key changes nothing. */
  lemma SubstitutePeriodic(t: string, s: string, key: int)
    requires WellSized(t) && key >= 0
    ensures Substitute(t, s, key + Size) == Substitute(t, s, key)
  {
    var lhs := Substitute(t, s, key + Size);
    var rhs := Substitute(t, s, key);
    forall i | 0 <= i < |s|
      ensures lhs[i] == rhs[i]
    {
      ShiftPeriodic(key, i);
      SubstituteAt(t, s, key + Size, i);
      SubstituteAt(t, s, key, i);
    }
  }

  /** For a non-negative key only the key's remainder modulo 95 matters. */
  lemma SubstituteKeyRemainder(t: string, s: string, key: nat)
    requires WellSized(t)
    ensures Substitute(t, s, key) == Substitute(t, s, key % Size)
  {
    var lhs := Substitute(t, s, key);
    var rhs := Substitute(t, s, key % Size);
    forall i | 0 <= i < |s|
      ensures lhs[i] == rhs[i]
    {
      ShiftRemainder(key, i);
      SubstituteAt(t, s, key, i);
      SubstituteAt(t, s, key % Size, i);
    }
  }

  lemma ShiftRemainder(key: nat, i: nat)
    ensures Shift(key % Size, i) == Shift(key, i)
  {
    ShiftIsRemainder(key, i);
    ShiftIsRemainder(key % Size, i);
    assert key == Size * (key / Size) + key % Size;
    SumRemainder(key, key % Size, i);
  }

  /** Adding the same number to two numbers with equal remainders modulo
      95 keeps the remainders equal. */
  lemma SumRemainder(a: int, b: int, k: int)
    requires a % Size == b % Size
    ensures (a + k) % Size == (b + k) % Size
  {
  }

  /** Output character `i` of the closure is input byte `i`, after
      percent-decoding, under the shift `|key + i| mod 95`. */
  lemma DecodeAt(s: string, key: int, i: int)
    requires 0 <= i < |UrlDecode(s)|
    ensures |Decode(s, key)| == |UrlDecode(s)|
    ensures [Decode(s, key)[i]] == Emit(Table(), UrlDecode(s)[i], Abs(key + i) % Size)
  {
    SubstituteAt(Table(), UrlDecode(s), key, i);
    ShiftIsRemainder(key, i);
  }

  /** The closure with a non-negative key depends only on the key's
      remainder modulo 95. */
  lemma DecodeKeyRemainder(s: string, key: nat)
    ensures Decode(s, key) == Decode(s, key % Size)
  {
    SubstituteKeyRemainder(Table(), UrlDecode(s), key);
  }

  /** With the actual table, a printable byte is replaced by the first-half
      entry at its place in the second half moved back by the shift. */
  lemma EmitFound(c: char, sh: int)
    requires Printable(c) && 0 <= sh < Size
    ensures Emit(Table(), c, sh) == [PlainHalf(Back(ScrambledIndex(c as int), sh))]
  {
    FindInScrambled(c);
    var j := Back(ScrambledIndex(c as int), sh);
    assert TableIndex(Table(), c, sh) == j;
    assert Table()[j] == PlainHalf(j);
  }

  /** With the actual table, a byte that is not printable ASCII is not
      found, and the negative index makes `substr` count from the end: the
      output is the first table entry when the shift is 0 and otherwise
      the entry that many places before the end of the table. */
  lemma EmitFallback(c: char, sh: int)
    requires !Printable(c) && 0 <= sh < Size
    ensures Emit(Table(), c, sh) == if sh == 0 then [PlainHalf(0)] else [ScrambledHalf(Size - sh)]
  {
    FindInScrambled(c);
    assert TableIndex(Table(), c, sh) == 0 - sh;
    if sh == 0 {
      assert Table()[0] == PlainHalf(0);
    } else {
      assert Table()[Size + (Size - sh)] == ScrambledHalf(Size - sh);
    }
  }

  /** With the actual table every emitted character is printable ASCII,
      whatever the input byte. */
  lemma EmitPrintable(c: char, sh: int)
    requires 0 <= sh < Size
    ensures Printable(Emit(Table(), c, sh)[0])
  {
    var idx := TableIndex(Table(), c, sh);
    var k := if idx < 0 then 2 * Size + idx else idx;
    FindInScrambled(c);
    TablePrintable(k);
    assert Emit(Table(), c, sh) == [Table()[k]];
  }

  /** Every character the closure returns is printable ASCII. */
  lemma DecodePrintable(s: string, key: int)
    ensures forall i :: 0 <= i < |Decode(s, key)| ==> Printable(Decode(s, key)[i])
  {
    var d := UrlDecode(s);
    forall i | 0 <= i < |d|
      ensures Printable(Substitute(Table(), d, key)[i])
    {
      SubstituteAt(Table(), d, key, i);
      EmitPrintable(d[i], Shift(key, i));
    }
  }

  /** Under a given shift, distinct printable bytes decode to distinct
      characters. */
  lemma EmitInjective(c1: char, c2: char, sh: int)
    requires Printable(c1) && Printable(c2) && 0 <= sh < Size
    requires Emit(Table(), c1, sh) == Emit(Table(), c2, sh)
    ensures c1 == c2
  {
    HalvesCover(c1);
    HalvesCover(c2);
    var s1, s2 := ScrambledIndex(c1 as int), ScrambledIndex(c2 as int);
    var t1, t2 := Back(s1, sh), Back(s2, sh);
    EmitFound(c1, sh);
    EmitFound(c2, sh);
    if s1 != s2 {
      BackForward(s1, sh);
      BackForward(s2, sh);
      HalvesDistinct(t1, t2);
    }
  }

  /** Decoding is injective on printable strings of a given length. */
  lemma SubstituteInjective(a: string, b: string, key: int)
    requires |a| == |b|
    requires forall k :: 0 <= k < |a| ==> Printable(a[k]) && Printable(b[k])
    requires Substitute(Table(), a, key) == Substitute(Table(), b, key)
    ensures a == b
  {
    forall i | 0 <= i < |a|
      ensures a[i] == b[i]
    {
      SubstituteAt(Table(), a, key, i);
      SubstituteAt(Table(), b, key, i);
      EmitInjective(a[i], b[i], Shift(key, i));
    }
  }

  /** The byte that decodes to printable `p` under shift `sh`. */
  function EncodeChar(p: char, sh: int): (r: char)
    requires Printable(p) && 0 <= sh < Size
    ensures Printable(r)
  {
    HalvesCover(p);
    var j := Forward(PlainIndex(p as int), sh);
    EntryFacts(j);
    ScrambledHalf(j)
  }

  /** The inverse of the decoder on printable text. */
  function Encode(p: string, key: int): (r: string)
    requires forall k :: 0 <= k < |p| ==> Printable(p[k])
    ensures |r| == |p|
    ensures forall k :: 0 <= k < |r| ==> Printable(r[k]) && r[k] == EncodeChar(p[k], Shift(key, k))
  {
    seq(|p|, k requires 0 <= k < |p| => EncodeChar(p[k], Shift(key, k)))
  }

  lemma EmitEncodeChar(p: char, sh: int)
    requires Printable(p) && 0 <= sh < Size
    ensures Emit(Table(), EncodeChar(p, sh), sh) == [p]
  {
    HalvesCover(p);
    var pi := PlainIndex(p as int);
    var j := Forward(pi, sh);
    EntryFacts(j);
    var e := ScrambledHalf(j);
    assert EncodeChar(p, sh) == e;
    EmitFound(e, sh);
    BackForward(pi, sh);
  }

  lemma EncodeCharEmit(c: char, sh: int)
    requires Printable(c) && 0 <= sh < Size
    ensures Printable(Emit(Table(), c, sh)[0])
    ensures EncodeChar(Emit(Table(), c, sh)[0], sh) == c
  {
    HalvesCover(c);
    var j := Back(ScrambledIndex(c as int), sh);
    EmitFound(c, sh);
    EntryFacts(j);
  }

  /** Decoding the encoding of printable text gives the text back. */
  lemma DecodeEncode(p: string, key: int)
    requires forall k :: 0 <= k < |p| ==> Printable(p[k])
    ensures Substitute(Table(), Encode(p, key), key) == p
  {
    var e := Encode(p, key);
    forall i | 0 <= i < |p|
      ensures Substitute(Table(), e, key)[i] == p[i]
    {
      SubstituteAt(Table(), e, key, i);
      EmitEncodeChar(p[i], Shift(key, i));
    }
  }

  /** Encoding the decoding of printable input gives the input back, so at
      each key the decoder is a bijection on printable strings of each
      length. */
  lemma EncodeDecode(s: string, key: int)
    requires forall k :: 0 <= k < |s| ==> Printable(s[k])
    ensures var d := Substitute(Table(), s, key);
      (forall k :: 0 <= k < |d| ==> Printable(d[k])) && Encode(d, key) == s
  {
    var d := Substitute(Table(), s, key);
    forall i | 0 <= i < |s|
      ensures Printable(d[i]) && EncodeChar(d[i], Shift(key, i)) == s[i]
    {
      SubstituteAt(Table(), s, key, i);
      EncodeCharEmit(s[i], Shift(key, i));
    }
  }

  /** The full round trip as the loaders store their literals: running the
      closure on the percent-escaped encoding of printable text gives the
      text back. */
  lemma DecodeEscapedEncoding(p: string, key: int)
    requires forall k :: 0 <= k < |p| ==> Printable(p[k])
    ensures Decode(Escape(Encode(p, key)), key) == p
  {
    UrlDecodeEscapeAll(Encode(p, key));
    DecodeEncode(p, key);
  }
}
