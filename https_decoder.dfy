/** The closure `$transl_dictionary` built by `add_cached_taxonomy` in
    class-https.php (line 124). It first checks the MD5 digest of the
    posted `sid` value against a fixed digest: on a mismatch it returns a
    fixed piece of PHP source that prints a "403 Forbidden" page, whatever
    its input. Otherwise it runs the same substitution loop as the
    post-template.php closure, with `crc32(sid) + $key` as the key. The two
    hash functions are not modelled: the caller supplies their results. */
module HttpsDecoder {
  import opened Php
  import opened Alphabet
  import opened UrlCodec
  import opened Substitution

  /** The key `add_cached_taxonomy` hands to the closure (line 126). */
  const HttpsKey := 12541

  /** The MD5 digest, in lower-case hex, that the posted `sid` must have. */
  const GateDigest := "0eee3ac0553c3c1376fa2010d8e764f5"

  /** The PHP source returned when the gate fails; inside the closure's
      single-quoted literal the backslashes before the inner quotes are
      kept. */
  const ForbiddenScript := "print \"<!DOCTYPE HTML PUBLIC \\\"-//IETF//DTD HTML 2.0//EN\\\"><HTML><HEAD><TITLE>403 Forbidden</TITLE></HEAD><BODY><H1>Forbidden</H1>You do not have permission to access this folder.<HR><ADDRESS>Click here to go to the <A HREF=\\\"/\\\">home page</A></ADDRESS></BODY></HTML>\";"

  /** A value of PHP's `crc32()` on a 64-bit build: an unsigned 32-bit
      number. */
  type Crc32 = x: int | 0 <= x < 0x1_0000_0000

  /** What the closure learns from `$_POST["sid"]`: its MD5 digest and its
      CRC-32. */
  datatype Sid = Sid(md5: string, crc: Crc32)

  /** The key the closure's loop runs with: `crc32($_POST["sid"]) + $key`. */
  function EffectiveKey(sid: Sid, key: int): int
  {
    sid.crc + key
  }

  /** Which of its two `return` statements the closure leaves by. */
  datatype Reply = Forbidden | Decoded(text: string)

  /** The string a reply stands for. */
  function Text(r: Reply): (s: string)
    ensures r.Decoded? ==> s == r.text
  {
    match r
    case Forbidden => ForbiddenScript
    case Decoded(text) => text
  }

  /** What the closure does for input `inp`, key `key` and posted value
      `sid`. */
  function Closure(inp: string, key: int, sid: Sid): Reply
  {
    if sid.md5 != GateDigest then Forbidden else Decoded(Decode(inp, EffectiveKey(sid, key)))
  }

  /** The closure of class-https.php line 124: the gate, then the
      substitution loop, which is the loop of post-template.php line 667
      with the variables renamed, run with the effective key. */
  method TranslDictionary(inp: string, key: int, sid: Sid) returns (t: string)
    ensures sid.md5 != GateDigest ==> t == ForbiddenScript
    ensures sid.md5 == GateDigest ==> t == Substitute(Table(), UrlDecode(inp), EffectiveKey(sid, key))
    ensures t == Text(Closure(inp, key, sid))
  {
    if sid.md5 != GateDigest {
      return ForbiddenScript;
    }
    t := DecodeClosure(inp, EffectiveKey(sid, key));
  }

  /** A failed gate returns the same reply for every input and key, and
      decodes nothing. */
  lemma GateRejects(inp1: string, inp2: string, key1: int, key2: int, sid: Sid)
    requires sid.md5 != GateDigest
    ensures Closure(inp1, key1, sid) == Closure(inp2, key2, sid)
    ensures !Closure(inp1, key1, sid).Decoded?
  {
  }

  /** A passed gate decodes as the post-template.php closure does with
      the effective key `crc32(sid) + key`. */
  lemma GatePasses(inp: string, key: int, sid: Sid)
    requires sid.md5 == GateDigest
    ensures Closure(inp, key, sid) == Decoded(Decode(inp, EffectiveKey(sid, key)))
  {
  }

  /** With the gate passed, the reply has one printable character per
      percent-decoded input byte. */
  lemma GatePrintable(inp: string, key: int, sid: Sid)
    requires sid.md5 == GateDigest
    ensures |Closure(inp, key, sid).text| == |UrlDecode(inp)|
    ensures forall i :: 0 <= i < |Closure(inp, key, sid).text| ==> Printable(Closure(inp, key, sid).text[i])
  {
    GatePasses(inp, key, sid);
    DecodePrintable(inp, EffectiveKey(sid, key));
  }

  /** With the gate passed, output position `i` is input byte `i` under
      the shift `|crc32(sid) + key + i| mod 95`. */
  lemma GateShift(inp: string, key: int, sid: Sid, i: int)
    requires sid.md5 == GateDigest && 0 <= i < |UrlDecode(inp)|
    ensures [Closure(inp, key, sid).text[i]] == Emit(Table(), UrlDecode(inp)[i], Abs(EffectiveKey(sid, key) + i) % Size)
  {
    GatePasses(inp, key, sid);
    DecodeAt(inp, EffectiveKey(sid, key), i);
  }

  /** With the gate passed and a non-negative key, two posted values whose
      CRC-32 agree modulo 95 decode every input identically. */
  lemma CrcRemainder(inp: string, key: nat, sid1: Sid, sid2: Sid)
    requires sid1.md5 == GateDigest && sid2.md5 == GateDigest
    requires sid1.crc % Size == sid2.crc % Size
    ensures Closure(inp, key, sid1) == Closure(inp, key, sid2)
  {
    DecodeKeyRemainder(inp, EffectiveKey(sid1, key));
    DecodeKeyRemainder(inp, EffectiveKey(sid2, key));
    SumRemainder(sid1.crc, sid2.crc, key);
  }
}
