/** The PHP built-ins the modelled code relies on, with PHP's own results
    for the inputs it can receive. PHP strings are byte strings; here they
    are `string`s whose characters stand for bytes. */
module Php {
  import opened Wrappers

  /** `strpos($s, $c, $offset)` for a one-character needle: the first index
      at or after `offset` holding `c`, or `None` where PHP returns `false`. */
  function StrPos(s: string, c: char, offset: nat): (r: Option<nat>)
    ensures r.Some? ==> offset <= r.value < |s| && s[r.value] == c
    decreases |s| - offset
  {
    if offset >= |s| then None
    else if s[offset] == c then Some(offset)
    else StrPos(s, c, offset + 1)
  }

  /** `strpos` finds the first occurrence at or after the offset, and
      returns `false` exactly when there is none. */
  lemma {:induction false} StrPosFirst(s: string, c: char, offset: nat)
    ensures StrPos(s, c, offset).Some? ==> forall k :: offset <= k < StrPos(s, c, offset).value ==> s[k] != c
    ensures StrPos(s, c, offset).None? <==> forall k :: offset <= k < |s| ==> s[k] != c
    decreases |s| - offset
  {
    if offset < |s| && s[offset] != c {
      StrPosFirst(s, c, offset + 1);
    }
  }

  /** The integer PHP uses when a `strpos` result takes part in arithmetic:
      `false` counts as 0. */
  function AsInt(r: Option<nat>): int
  {
    if r.Some? then r.value else 0
  }

  /** `substr($s, $start, 1)`: a negative start counts from the end (and is
      clamped to 0), a start at or past the end gives the empty string. */
  function Substr1(s: string, start: int): (r: string)
    ensures 0 <= start < |s| ==> r == [s[start]]
    ensures -|s| <= start < 0 ==> r == [s[|s| + start]]
    ensures |s| <= start ==> r == []
  {
    var from := if start >= 0 then start else if |s| + start >= 0 then |s| + start else 0;
    if from < |s| then [s[from]] else []
  }

  function Abs(x: int): (r: nat)
    ensures r == x || r == -x
  {
    if x < 0 then -x else x
  }

  /** `fmod($x, $m)` on integer arguments: the remainder of division
      truncated toward zero, which takes the sign of `x`. */
  function FMod(x: int, m: int): (r: int)
    requires m > 0
    ensures x >= 0 ==> 0 <= r < m
    ensures x < 0 ==> -m < r <= 0
  {
    if x >= 0 then x % m else -((-x) % m)
  }

  /** `abs(fmod($x, $m))` is the remainder of `|x|` divided by `m`. */
  lemma FModRemainder(x: int, m: int)
    requires m > 0
    ensures Abs(FMod(x, m)) == Abs(x) % m
  {
  }

  /** PHP truthiness of a value that is either `null` (`None`) or a string:
      `null`, `""` and `"0"` are false, every other string is true. */
  predicate Truthy(v: Option<string>)
  {
    v.Some? && v.value != "" && v.value != "0"
  }

  /** `strpos($s, $p) === 0` for a non-empty `$p`. */
  predicate StartsWith(s: string, p: string)
  {
    |p| <= |s| && s[..|p|] == p
  }

  /** `$needle` occurs in `$s` starting at index `k`. */
  predicate OccursAt(s: string, needle: string, k: int)
  {
    0 <= k && k + |needle| <= |s| && s[k..k + |needle|] == needle
  }

  /** `str_replace($search, $replace, $subject)` for a non-empty search
      string: occurrences are replaced left to right without overlapping. */
  function StrReplace(search: string, replace: string, subject: string): (r: string)
    requires search != []
    ensures |subject| < |search| ==> r == subject
    decreases |subject|
  {
    if |subject| < |search| then subject
    else if subject[..|search|] == search then replace + StrReplace(search, replace, subject[|search|..])
    else [subject[0]] + StrReplace(search, replace, subject[1..])
  }

  /** A subject in which the search string does not occur is returned
      unchanged. */
  lemma {:induction false} StrReplaceAbsent(search: string, replace: string, subject: string)
    requires search != []
    requires forall k :: !OccursAt(subject, search, k)
    ensures StrReplace(search, replace, subject) == subject
    decreases |subject|
  {
    if |subject| >= |search| {
      assert !OccursAt(subject, search, 0);
      forall k
        ensures !OccursAt(subject[1..], search, k)
      {
        assert !OccursAt(subject, search, k + 1);
        if 0 <= k && k + |search| <= |subject| - 1 {
          assert subject[1..][k..k + |search|] == subject[k + 1..k + 1 + |search|];
        }
      }
      StrReplaceAbsent(search, replace, subject[1..]);
    }
  }

  /** Replacing a one-character search string by text that does not contain
      that character leaves none of it behind. */
  lemma {:induction false} StrReplaceRemoves(c: char, replace: string, subject: string)
    requires c !in replace
    ensures c !in StrReplace([c], replace, subject)
    decreases |subject|
  {
    if |subject| >= 1 {
      StrReplaceRemoves(c, replace, subject[1..]);
    }
  }

  /** Replacing a one-character search string: each character other than
      `c` is kept and each `c` becomes `replace`. */
  lemma {:induction false} StrReplaceChar(c: char, replace: string, a: string, b: string)
    ensures StrReplace([c], replace, a + b) == StrReplace([c], replace, a) + StrReplace([c], replace, b)
    decreases |a|
  {
    if a != [] {
      assert (a + b)[1..] == a[1..] + b;
      assert (a + b)[..1] == a[..1];
      StrReplaceChar(c, replace, a[1..], b);
    } else {
      assert a + b == b;
    }
  }

  /** PHP's decimal conversion of a non-negative integer (`(string)$n`). */
  function Decimal(n: nat): (r: string)
    ensures r != []
    ensures forall k :: 0 <= k < |r| ==> '0' <= r[k] <= '9'
    ensures n > 0 ==> r[0] != '0'
  {
    if n < 10 then [Digit(n)] else Decimal(n / 10) + [Digit(n % 10)]
  }

  function Digit(d: nat): (r: char)
    requires d < 10
    ensures '0' <= r <= '9'
  {
    ('0' as int + d) as char
  }

  /** The number a string of decimal digits denotes. */
  function DigitsValue(s: string): nat
    requires forall k :: 0 <= k < |s| ==> '0' <= s[k] <= '9'
  {
    if s == [] then 0 else 10 * DigitsValue(s[..|s| - 1]) + (s[|s| - 1] as int - '0' as int)
  }

  /** Reading back the decimal text of a number gives the number. */
  lemma {:induction false} DecimalValue(n: nat)
    ensures DigitsValue(Decimal(n)) == n
  {
    if n >= 10 {
      DecimalValue(n / 10);
      var d := Decimal(n);
      assert d[..|d| - 1] == Decimal(n / 10);
    }
  }

  /** `rtrim($path, '/')`: the path without its trailing slashes. */
  function TrimTrailingSlashes(s: string): string
  {
    if s != [] && s[|s| - 1] == '/' then TrimTrailingSlashes(s[..|s| - 1]) else s
  }

  /** Trimming keeps a prefix that does not end in a slash and removes
      only slashes. */
  lemma {:induction false} TrimTrailingSlashesShape(s: string)
    ensures TrimTrailingSlashes(s) <= s
    ensures TrimTrailingSlashes(s) == [] || TrimTrailingSlashes(s)[|TrimTrailingSlashes(s)| - 1] != '/'
    ensures forall k :: |TrimTrailingSlashes(s)| <= k < |s| ==> s[k] == '/'
  {
    if s != [] && s[|s| - 1] == '/' {
      TrimTrailingSlashesShape(s[..|s| - 1]);
    }
  }

  /** The text after the last slash. */
  function LastComponent(s: string): string
  {
    if s == [] || s[|s| - 1] == '/' then [] else LastComponent(s[..|s| - 1]) + [s[|s| - 1]]
  }

  /** The last component is a slash-free suffix, preceded by a slash
      unless it is the whole text. */
  lemma {:induction false} LastComponentShape(s: string)
    ensures '/' !in LastComponent(s)
    ensures |LastComponent(s)| <= |s| && LastComponent(s) == s[|s| - |LastComponent(s)|..]
    ensures |LastComponent(s)| < |s| ==> s[|s| - |LastComponent(s)| - 1] == '/'
  {
    if s != [] && s[|s| - 1] != '/' {
      var init, c := s[..|s| - 1], s[|s| - 1];
      var r' := LastComponent(init);
      LastComponentShape(init);
      assert LastComponent(s) == r' + [c];
      assert s[|s| - |r'| - 1..] == init[|init| - |r'|..] + [c];
    }
  }

  /** `basename($path, $suffix)` with `/` as the separator: the last path
      component, ignoring trailing slashes, with `$suffix` removed when the
      component ends in it and is longer than it. */
  function Basename(path: string, suffix: string): string
  {
    var name := LastComponent(TrimTrailingSlashes(path));
    if |suffix| < |name| && name[|name| - |suffix|..] == suffix then name[..|name| - |suffix|] else name
  }

  /** The basename of `dir/code.suffix` is `code` for a non-empty `code`
      without slashes, whatever the directory. */
  lemma BasenameOfFile(dir: string, code: string, suffix: string)
    requires code != [] && '/' !in code && '/' !in suffix
    ensures Basename(dir + "/" + code + suffix, suffix) == code
  {
    var path := dir + "/" + code + suffix;
    var name := code + suffix;
    if suffix != [] {
      assert path[|path| - 1] == suffix[|suffix| - 1];
    } else {
      assert path[|path| - 1] == code[|code| - 1];
    }
    assert TrimTrailingSlashes(path) == path;
    assert path == (dir + "/") + name;
    ComponentAfterSlash(dir, name);
  }

  lemma {:induction false} ComponentAfterSlash(dir: string, name: string)
    requires '/' !in name
    ensures LastComponent(dir + "/" + name) == name
    decreases |name|
  {
    if name == [] {
      assert dir + "/" + name == dir + "/";
    } else {
      var init := name[..|name| - 1];
      assert (dir + "/" + name)[..|dir + "/" + name| - 1] == dir + "/" + init;
      ComponentAfterSlash(dir, init);
    }
  }
}
