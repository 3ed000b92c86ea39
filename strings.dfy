/**
 * Python's built-in string operations as the scraper and the encryptor use
 * them: `str.strip`, `str.split`, `str.replace`, `str.startswith`, the `in`
 * operator on strings, ASCII `upper`/`lower`, and `int()` on a string.
 */
module PyStrings {
  import opened Optional

  /** The characters for which `str.isspace()` holds. `str.strip()` and the
      regular-expression class `\s` both use exactly this set. */
  predicate IsSpace(c: char) {
    c == ' ' || ('\t' <= c <= '\r') || ('\U{1C}' <= c <= '\U{1F}')
    || c == '\U{85}' || c == '\U{A0}' || c == '\U{1680}'
    || ('\U{2000}' <= c <= '\U{200A}') || c == '\U{2028}' || c == '\U{2029}'
    || c == '\U{202F}' || c == '\U{205F}' || c == '\U{3000}'
  }

  predicate AllSpace(s: string) {
    forall i :: 0 <= i < |s| ==> IsSpace(s[i])
  }

  lemma DropDrop(s: string, a: nat, b: nat)
    requires a <= |s| && b <= |s| - a
    ensures s[a..][b..] == s[a + b..]
  {
    forall t | 0 <= t < |s| - a - b ensures s[a..][b..][t] == s[a + b..][t] {
      assert s[a..][b..][t] == s[a + b + t];
    }
  }

  lemma TakeTake(s: string, a: nat, b: nat)
    requires b <= a <= |s|
    ensures s[..a][..b] == s[..b]
  {
    forall t | 0 <= t < b ensures s[..a][..b][t] == s[..b][t] {
      assert s[..a][..b][t] == s[t];
    }
  }

  /** A whitespace character in front of whitespace. */
  lemma SpaceHead(s: string, k: nat)
    requires 1 <= k <= |s| && IsSpace(s[0]) && AllSpace(s[1..][..k - 1])
    ensures AllSpace(s[..k])
  {
    forall i | 0 <= i < k ensures IsSpace(s[..k][i]) {
      if i > 0 {
        assert s[..k][i] == s[1..][..k - 1][i - 1];
      }
    }
  }

  /** Whitespace followed by a whitespace character. */
  lemma SpaceTail(s: string, k: nat)
    requires k < |s| && IsSpace(s[|s| - 1]) && AllSpace(s[..|s| - 1][k..])
    ensures AllSpace(s[k..])
  {
    forall i | 0 <= i < |s| - k ensures IsSpace(s[k..][i]) {
      if k + i < |s| - 1 {
        assert s[k..][i] == s[..|s| - 1][k..][i];
      }
    }
  }

  /** A slice of a slice is a slice. */
  lemma SliceOfSlice(s: string, a: nat, b: nat, c: nat)
    requires a <= |s| && b <= c <= |s| - a
    ensures s[a..][b..c] == s[a + b..a + c]
  {
    forall t | 0 <= t < c - b ensures s[a..][b..c][t] == s[a + b..a + c][t] {
      assert s[a..][b..c][t] == s[a + b + t];
    }
  }

  /** A character absent from a string is absent from its prefixes and
      suffixes. */
  lemma NotInSlices(s: string, c: char, i: nat, j: nat)
    requires c !in s && i <= |s| && j <= |s|
    ensures c !in s[..i] && c !in s[j..]
  {
  }

  /** `s.lstrip()`: drops the leading whitespace and nothing else. */
  function LStrip(s: string): (r: string)
    ensures |r| <= |s| && r == s[|s| - |r|..]
    ensures AllSpace(s[..|s| - |r|])
    ensures r != [] ==> !IsSpace(r[0])
  {
    if |s| > 0 && IsSpace(s[0]) then
      var r := LStrip(s[1..]);
      DropDrop(s, 1, |s| - 1 - |r|);
      SpaceHead(s, |s| - |r|);
      r
    else s
  }

  /** `s.rstrip()`: drops the trailing whitespace and nothing else. */
  function RStrip(s: string): (r: string)
    ensures |r| <= |s| && r == s[..|r|]
    ensures AllSpace(s[|r|..])
    ensures r != [] ==> !IsSpace(r[|r| - 1])
  {
    if |s| > 0 && IsSpace(s[|s| - 1]) then
      var r := RStrip(s[..|s| - 1]);
      TakeTake(s, |s| - 1, |r|);
      SpaceTail(s, |r|);
      r
    else s
  }

  /** `s.strip()`. The result is empty exactly when `s` is all whitespace. */
  function Strip(s: string): (r: string)
    ensures |r| <= |s|
    ensures r != [] ==> !IsSpace(r[0]) && !IsSpace(r[|r| - 1])
    ensures r == [] <==> AllSpace(s)
  {
    var l := LStrip(s);
    var r := RStrip(l);
    AllSpaceSplit(s, |s| - |l|);
    assert l[0..] == l;
    assert r != [] ==> r[0] == l[0];
    r
  }

  lemma AllSpaceSplit(s: string, k: nat)
    requires k <= |s|
    ensures AllSpace(s) <==> AllSpace(s[..k]) && AllSpace(s[k..])
  {
    if AllSpace(s[..k]) && AllSpace(s[k..]) {
      forall i | 0 <= i < |s| ensures IsSpace(s[i]) {
        if i < k {
          assert s[i] == s[..k][i];
        } else {
          assert s[i] == s[k..][i - k];
        }
      }
    }
  }

  /** A string that begins and ends with a non-space character is its own strip. */
  lemma StripNoop(s: string)
    requires s != [] ==> !IsSpace(s[0]) && !IsSpace(s[|s| - 1])
    ensures Strip(s) == s
  {
  }

  predicate StartsWith(s: string, prefix: string) {
    |prefix| <= |s| && s[..|prefix|] == prefix
  }

  predicate EndsWith(s: string, suffix: string) {
    |suffix| <= |s| && s[|s| - |suffix|..] == suffix
  }

  /** `sub` occurs in `s` at position `j`. */
  predicate OccursAt(s: string, sub: string, j: int) {
    0 <= j && j + |sub| <= |s| && s[j..j + |sub|] == sub
  }

  /** `s.find(sub)`: the first position where `sub` occurs, or -1
      (`IndexOfFirst` states that no earlier position has it). */
  function IndexOf(s: string, sub: string): (r: int)
    requires |sub| > 0
    ensures r == -1 || OccursAt(s, sub, r)
    decreases |s|
  {
    if |s| < |sub| then -1
    else if s[..|sub|] == sub then 0
    else
      var k := IndexOf(s[1..], sub);
      if k < 0 then -1
      else
        SliceOfSlice(s, 1, k, k + |sub|);
        k + 1
  }

  /** No position before the one `IndexOf` returns holds `sub`; when it
      returns -1, no position does. */
  lemma {:induction false} IndexOfFirst(s: string, sub: string)
    requires |sub| > 0
    ensures forall j :: 0 <= j && (IndexOf(s, sub) == -1 || j < IndexOf(s, sub)) ==> !OccursAt(s, sub, j)
    decreases |s|
  {
    if |s| >= |sub| && s[..|sub|] != sub {
      IndexOfFirst(s[1..], sub);
      forall j | 1 <= j && j + |sub| <= |s|
        ensures OccursAt(s, sub, j) == OccursAt(s[1..], sub, j - 1)
      {
        assert s[1..][j - 1..j - 1 + |sub|] == s[j..j + |sub|];
      }
      assert !OccursAt(s, sub, 0) by { assert s[0..|sub|] == s[..|sub|]; }
    }
  }

  /** `sub in s`, for a non-empty `sub`. */
  predicate Contains(s: string, sub: string)
    requires |sub| > 0
  {
    IndexOf(s, sub) >= 0
  }

  lemma ContainsIff(s: string, sub: string)
    requires |sub| > 0
    ensures Contains(s, sub) <==> exists j :: OccursAt(s, sub, j)
  {
    IndexOfFirst(s, sub);
  }

  /** `s.split(sep)`: the pieces between the non-overlapping occurrences of
      `sep`, found left to right. */
  function Split(s: string, sep: string): (parts: seq<string>)
    requires |sep| > 0
    ensures |parts| >= 1
    decreases |s|
  {
    var i := IndexOf(s, sep);
    if i < 0 then [s] else [s[..i]] + Split(s[i + |sep|..], sep)
  }

  /** `s.split(sep, 1)`: at most one cut, at the first occurrence. */
  function SplitOnce(s: string, sep: string): (parts: seq<string>)
    requires |sep| > 0
    ensures 1 <= |parts| <= 2
  {
    var i := IndexOf(s, sep);
    if i < 0 then [s] else [s[..i], s[i + |sep|..]]
  }

  /** `s.replace(old, new)`: every non-overlapping occurrence, left to right. */
  function Replace(s: string, pat: string, repl: string): string
    requires |pat| > 0
    decreases |s|
  {
    var i := IndexOf(s, pat);
    if i < 0 then s else s[..i] + repl + Replace(s[i + |pat|..], pat, repl)
  }

  /** The inverse of `Split`: the pieces glued back with the separator. */
  function Join(parts: seq<string>, sep: string): string
    requires |parts| >= 1
  {
    if |parts| == 1 then parts[0] else parts[0] + sep + Join(parts[1..], sep)
  }

  /** No piece of a split contains the separator, and joining the pieces
      gives back the original string. */
  lemma {:induction false} SplitJoin(s: string, sep: string)
    requires |sep| > 0
    ensures Join(Split(s, sep), sep) == s
    ensures forall p :: p in Split(s, sep) ==> !Contains(p, sep)
    decreases |s|
  {
    var i := IndexOf(s, sep);
    if i < 0 {
      assert Split(s, sep) == [s];
    } else {
      var rest := s[i + |sep|..];
      var tail := Split(rest, sep);
      assert Split(s, sep) == [s[..i]] + tail;
      SplitJoin(rest, sep);
      JoinCons(s[..i], tail, sep);
      assert s[i..i + |sep|] == sep;
      assert s == s[..i] + s[i..i + |sep|] + rest;
      PrefixBeforeFirst(s, sep, i);
    }
  }

  lemma JoinCons(p: string, tail: seq<string>, sep: string)
    requires |tail| >= 1
    ensures Join([p] + tail, sep) == p + sep + Join(tail, sep)
  {
    assert ([p] + tail)[1..] == tail;
  }

  /** The text before the first occurrence of `sep` does not contain it. */
  lemma PrefixBeforeFirst(s: string, sep: string, i: int)
    requires |sep| > 0 && i == IndexOf(s, sep) && i >= 0
    ensures !Contains(s[..i], sep)
  {
    var p := s[..i];
    IndexOfFirst(s, sep);
    if Contains(p, sep) {
      var j := IndexOf(p, sep);
      assert p[j..j + |sep|] == s[j..j + |sep|];
      assert OccursAt(s, sep, j);
      assert false;
    }
  }

  /** `Replace` is split-then-join with the replacement text. */
  lemma {:induction false} ReplaceIsJoin(s: string, pat: string, repl: string)
    requires |pat| > 0
    ensures Replace(s, pat, repl) == Join(Split(s, pat), repl)
    decreases |s|
  {
    var i := IndexOf(s, pat);
    if i >= 0 {
      var rest := s[i + |pat|..];
      var tail := Split(rest, pat);
      ReplaceIsJoin(rest, pat, repl);
      JoinCons(s[..i], tail, repl);
    }
  }

  /** A character absent from the input and from the replacement text is absent
      from the result. */
  lemma {:induction false} ReplaceAvoids(s: string, pat: string, repl: string, c: char)
    requires |pat| > 0 && c !in s && c !in repl
    ensures c !in Replace(s, pat, repl)
    decreases |s|
  {
    var i := IndexOf(s, pat);
    if i >= 0 {
      var rest := s[i + |pat|..];
      NotInSlices(s, c, i, i + |pat|);
      var r := Replace(rest, pat, repl);
      ReplaceAvoids(rest, pat, repl, c);
      NotInAppend3(s[..i], repl, r, c);
    }
  }

  lemma NotInAppend3(a: string, b: string, d: string, c: char)
    requires c !in a && c !in b && c !in d
    ensures c !in a + b + d
  {
  }

  function UpperChar(c: char): char {
    if 'a' <= c <= 'z' then (c as int - 32) as char else c
  }

  function LowerChar(c: char): char {
    if 'A' <= c <= 'Z' then (c as int + 32) as char else c
  }

  /** `s.upper()` on ASCII letters. */
  function Upper(s: string): (r: string)
    ensures |r| == |s|
  {
    seq(|s|, i requires 0 <= i < |s| => UpperChar(s[i]))
  }

  /** `s.lower()` on ASCII letters. */
  function Lower(s: string): (r: string)
    ensures |r| == |s|
  {
    seq(|s|, i requires 0 <= i < |s| => LowerChar(s[i]))
  }

  predicate IsDigit(c: char) {
    '0' <= c <= '9'
  }

  predicate AllDigits(s: string) {
    forall i :: 0 <= i < |s| ==> IsDigit(s[i])
  }

  /** The digits of an integer literal as `int()` accepts them: at least one
      digit, single underscores allowed between digits. */
  predicate IsDigitGroups(s: string) {
    && |s| > 0 && IsDigit(s[0]) && IsDigit(s[|s| - 1])
    && (forall i :: 0 <= i < |s| ==> IsDigit(s[i]) || s[i] == '_')
    && (forall i :: 0 <= i < |s| - 1 ==> !(s[i] == '_' && s[i + 1] == '_'))
  }

  /** The decimal value of the digits of `s`, ignoring underscores. */
  function DecimalValue(s: string): nat {
    if s == [] then 0
    else if IsDigit(s[|s| - 1]) then
      DecimalValue(s[..|s| - 1]) * 10 + (s[|s| - 1] as int - '0' as int)
    else DecimalValue(s[..|s| - 1])
  }

  /** `int(s)` for a string: surrounding whitespace, an optional sign, then
      digit groups; `None` where Python raises `ValueError`. */
  function ParseInt(s: string): Option<int> {
    var t := Strip(s);
    if |t| > 0 && (t[0] == '+' || t[0] == '-') then
      if IsDigitGroups(t[1..]) then
        var m: int := DecimalValue(t[1..]);
        Some(if t[0] == '-' then -m else m)
      else None
    else if IsDigitGroups(t) then Some(DecimalValue(t))
    else None
  }

  function DigitChar(d: int): char
    requires 0 <= d < 10
  {
    ('0' as int + d) as char
  }

  /** Two-digit zero-padded decimal, as `%H`, `%M`, `%d` and `%m` print. */
  function Pad2(n: int): (r: string)
    requires 0 <= n < 100
    ensures |r| == 2 && AllDigits(r)
  {
    [DigitChar(n / 10), DigitChar(n % 10)]
  }

  /** Four-digit zero-padded decimal, as `%Y` prints years 1000 to 9999. */
  function Pad4(n: int): (r: string)
    requires 0 <= n < 10000
    ensures |r| == 4 && AllDigits(r)
  {
    Pad2(n / 100) + Pad2(n % 100)
  }

  lemma DecimalValuePad2(n: int)
    requires 0 <= n < 100
    ensures DecimalValue(Pad2(n)) == n
  {
    var p := Pad2(n);
    var hi, lo := DigitChar(n / 10), DigitChar(n % 10);
    assert p[..1] == [hi] && p[..1][..0] == [];
    assert DecimalValue([hi]) == n / 10;
    assert DecimalValue(p) == DecimalValue(p[..1]) * 10 + n % 10;
  }

  lemma DecimalValueAppendPad2(s: string, n: int)
    requires 0 <= n < 100
    ensures DecimalValue(s + Pad2(n)) == DecimalValue(s) * 100 + n
  {
    var hi, lo := DigitChar(n / 10), DigitChar(n % 10);
    var t := s + Pad2(n);
    assert t[..|t| - 1] == s + [hi];
    assert (s + [hi])[..|s|] == s;
    assert DecimalValue(s + [hi]) == DecimalValue(s) * 10 + n / 10;
  }

  /** `Pad4` prints the decimal digits of its argument. */
  lemma DecimalValuePad4(n: int)
    requires 0 <= n < 10000
    ensures DecimalValue(Pad4(n)) == n
  {
    DecimalValuePad2(n / 100);
    DecimalValueAppendPad2(Pad2(n / 100), n % 100);
  }

  /** `int()` reads back what `Pad2` prints. */
  lemma ParseIntPad2(n: int)
    requires 0 <= n < 100
    ensures ParseInt(Pad2(n)) == Some(n)
  {
    var p := Pad2(n);
    StripNoop(p);
    DecimalValuePad2(n);
  }

  /** A one-character string occurs exactly where that character stands. */
  lemma OccursAtChar(s: string, c: char)
    ensures forall j :: OccursAt(s, [c], j) <==> 0 <= j < |s| && s[j] == c
  {
    forall j | 0 <= j < |s|
      ensures OccursAt(s, [c], j) <==> s[j] == c
    {
      assert s[j..j + 1] == [s[j]];
    }
  }

  /** A string with exactly one occurrence of a one-character separator splits
      into the two sides. */
  lemma SplitAroundChar(a: string, c: char, b: string)
    requires c !in a && c !in b
    ensures Split(a + [c] + b, [c]) == [a, b]
  {
    var s := a + [c] + b;
    OccursAtChar(s, c);
    OccursAtChar(b, c);
    IndexOfFirst(s, [c]);
    assert s[|a|] == c;
    assert forall j :: 0 <= j < |a| ==> s[j] == a[j];
    assert IndexOf(s, [c]) == |a|;
    assert s[|a| + 1..] == b && s[..|a|] == a;
    assert IndexOf(b, [c]) == -1;
  }

  /** Stripping adds no characters. */
  lemma StripAvoids(s: string, c: char)
    requires c !in s
    ensures c !in Strip(s)
  {
    var r := Strip(s);
    var l := LStrip(s);
    assert r == RStrip(l) && r == l[..|r|] && l == s[|s| - |l|..];
    forall k | 0 <= k < |r|
      ensures r[k] != c
    {
      assert r[k] == s[|s| - |l| + k];
    }
  }

  /** Neither side of `s.split(sep, 1)` holds a character `s` does not hold. */
  lemma SplitOnceAvoids(s: string, sep: string, c: char)
    requires |sep| > 0 && c !in s
    ensures forall p :: p in SplitOnce(s, sep) ==> c !in p
  {
    var i := IndexOf(s, sep);
    if i >= 0 {
      forall k | 0 <= k < i
        ensures s[..i][k] != c
      {
        assert s[..i][k] == s[k];
      }
      var rest := s[i + |sep|..];
      forall k | 0 <= k < |rest|
        ensures rest[k] != c
      {
        assert rest[k] == s[i + |sep| + k];
      }
    }
  }

  /** No piece of a split on a one-character separator holds that character. */
  lemma SplitPiecesAvoid(s: string, c: char)
    ensures forall p :: p in Split(s, [c]) ==> c !in p
  {
    SplitJoin(s, [c]);
    forall p | p in Split(s, [c])
      ensures c !in p
    {
      ContainsIff(p, [c]);
      OccursAtChar(p, c);
    }
  }
}
