/** String helpers standing in for the Python built-ins the source relies on:
    `str(n)`, `str.strip`, `str.startswith`, `str.split`, `str.join`, `str.lower`. */
module Text {
  import opened Wrappers

  /** The characters Python's `str.isspace` (and the regex class `\s`) accept. */
  predicate IsWhitespace(c: char) {
    var n := c as int;
    n == 0x20 || (0x09 <= n <= 0x0D) || (0x1C <= n <= 0x1F) || n == 0x85 || n == 0xA0
    || n == 0x1680 || (0x2000 <= n <= 0x200A) || n == 0x2028 || n == 0x2029
    || n == 0x202F || n == 0x205F || n == 0x3000
  }

  predicate NoWhitespace(s: string) {
    forall i :: 0 <= i < |s| ==> !IsWhitespace(s[i])
  }

  /** Python's truthiness of an optional string: present and non-empty. */
  predicate Truthy(s: Option<string>) {
    s.Some? && s.value != ""
  }

  /** `s or None`. */
  function OrNone(s: string): (r: Option<string>)
    ensures Truthy(r) <==> s != ""
    ensures r.Some? ==> r.value == s
  {
    if s == "" then None else Some(s)
  }

  predicate StartsWith(s: string, prefix: string) {
    |prefix| <= |s| && s[..|prefix|] == prefix
  }

  lemma StartsWithConcat(a: string, b: string)
    ensures StartsWith(a + b, a)
  {
    assert (a + b)[..|a|] == a;
  }

  predicate EndsWith(s: string, suffix: string) {
    |suffix| <= |s| && s[|s| - |suffix|..] == suffix
  }

  lemma EndsWithConcat(a: string, b: string)
    ensures EndsWith(a + b, b)
  {
    assert (a + b)[|a + b| - |b|..] == b;
  }

  /** Python's `x in s` on strings. */
  predicate Contains(s: string, x: string) {
    exists i :: 0 <= i <= |s| && StartsWith(s[i..], x)
  }

  /** A piece of a concatenation is found in it. */
  lemma ContainsMiddle(a: string, x: string, b: string)
    ensures Contains(a + x + b, x)
  {
    assert (a + x + b)[|a|..][..|x|] == x;
  }

  /** Where `x` is found, its first character is found. */
  lemma ContainsFirstChar(s: string, x: string)
    requires x != [] && Contains(s, x)
    ensures x[0] in s
  {
    var i :| 0 <= i <= |s| && StartsWith(s[i..], x);
    assert s[i..][0] == x[0];
  }

  function DigitChar(d: nat): (c: char)
    requires d < 10
    ensures '0' <= c <= '9'
  {
    ['0', '1', '2', '3', '4', '5', '6', '7', '8', '9'][d]
  }

  /** `str(n)` for a non-negative integer. */
  function NatToString(n: nat): (s: string)
    ensures |s| >= 1
    ensures forall i :: 0 <= i < |s| ==> '0' <= s[i] <= '9'
    ensures n >= 10 ==> s[0] != '0'
    decreases n
  {
    if n < 10 then [DigitChar(n)] else NatToString(n / 10) + [DigitChar(n % 10)]
  }

  predicate AllDigits(s: string) {
    forall i :: 0 <= i < |s| ==> '0' <= s[i] <= '9'
  }

  function DigitValue(c: char): nat
    requires '0' <= c <= '9'
  {
    (c as int - '0' as int) as nat
  }

  lemma DigitRoundTrip(d: nat)
    requires d < 10
    ensures DigitValue(DigitChar(d)) == d
  {
  }

  /** Reads back a string of decimal digits. */
  function DigitsValue(s: string): nat
    requires forall i :: 0 <= i < |s| ==> '0' <= s[i] <= '9'
    decreases |s|
  {
    if s == [] then 0 else 10 * DigitsValue(s[..|s| - 1]) + DigitValue(s[|s| - 1])
  }

  /** `int(str(n)) == n`: decimal rendering loses nothing. */
  lemma {:induction false} NatToStringRoundTrip(n: nat)
    ensures DigitsValue(NatToString(n)) == n
    decreases n
  {
    var s := NatToString(n);
    if n < 10 {
      DigitRoundTrip(n);
    } else {
      NatToStringRoundTrip(n / 10);
      assert s[..|s| - 1] == NatToString(n / 10);
      DigitRoundTrip(n % 10);
    }
  }

  /** Distinct numbers render to distinct strings. */
  lemma NatToStringInjective(m: nat, n: nat)
    requires NatToString(m) == NatToString(n)
    ensures m == n
  {
    NatToStringRoundTrip(m);
    NatToStringRoundTrip(n);
  }

  /** `str(n).rjust(width, "0")`, as `%02d` and `isoformat` print numbers. */
  function ZeroPad(n: nat, width: nat): (s: string)
    ensures |s| >= width
    ensures |s| >= 1
  {
    var digits := NatToString(n);
    if |digits| >= width then digits else seq(width - |digits|, _ => '0') + digits
  }

  lemma {:induction false} LeadingZeros(k: nat, s: string)
    requires forall i :: 0 <= i < |s| ==> '0' <= s[i] <= '9'
    ensures DigitsValue(seq(k, _ => '0') + s) == DigitsValue(s)
    decreases |s|
  {
    var z := seq(k, _ => '0');
    if s == [] {
      assert z + s == z;
      AllZeros(k);
    } else {
      var t := z + s;
      assert t[..|t| - 1] == z + s[..|s| - 1];
      LeadingZeros(k, s[..|s| - 1]);
    }
  }

  lemma {:induction false} AllZeros(k: nat)
    ensures DigitsValue(seq(k, _ => '0')) == 0
    decreases k
  {
    if k > 0 {
      assert seq(k, _ => '0')[..k - 1] == seq(k - 1, _ => '0');
      AllZeros(k - 1);
    }
  }

  lemma TwoDigits(n: nat)
    requires n < 100
    ensures |ZeroPad(n, 2)| == 2
  {
    if n >= 10 {
      assert NatToString(n) == NatToString(n / 10) + [DigitChar(n % 10)];
    }
  }

  /** Zero padding does not change the number a string of digits spells. */
  lemma ZeroPadRoundTrip(n: nat, width: nat)
    ensures forall i :: 0 <= i < |ZeroPad(n, width)| ==> '0' <= ZeroPad(n, width)[i] <= '9'
    ensures DigitsValue(ZeroPad(n, width)) == n
  {
    var digits := NatToString(n);
    NatToStringRoundTrip(n);
    if |digits| < width {
      LeadingZeros(width - |digits|, digits);
    }
  }

  function TrimStart(s: string): (r: string)
    ensures |r| <= |s| && r == s[|s| - |r|..]
    ensures r == [] || !IsWhitespace(r[0])
    decreases |s|
  {
    if s != [] && IsWhitespace(s[0]) then TrimStart(s[1..]) else s
  }

  function TrimEnd(s: string): (r: string)
    ensures |r| <= |s| && r == s[..|r|]
    ensures r == [] || !IsWhitespace(r[|r| - 1])
    decreases |s|
  {
    if s != [] && IsWhitespace(s[|s| - 1]) then TrimEnd(s[..|s| - 1]) else s
  }

  /** `s.strip()`. */
  function Strip(s: string): (r: string)
    ensures r == [] || (!IsWhitespace(r[0]) && !IsWhitespace(r[|r| - 1]))
  {
    TrimEnd(TrimStart(s))
  }

  /** ASCII case folding of Python's `str.lower`. */
  function Lower(s: string): (r: string)
    ensures |r| == |s|
  {
    seq(|s|, i requires 0 <= i < |s| =>
      if 'A' <= s[i] <= 'Z' then (s[i] as int + 32) as char else s[i])
  }

  /** `sep.join(parts)`. */
  function Join(parts: seq<string>, sep: string): string
    decreases |parts|
  {
    if parts == [] then ""
    else if |parts| == 1 then parts[0]
    else parts[0] + sep + Join(parts[1..], sep)
  }

  /** What is found in `s` is no longer than `s`. */
  lemma ContainsLength(s: string, x: string)
    requires Contains(s, x)
    ensures |x| <= |s|
  {
    var i :| 0 <= i <= |s| && StartsWith(s[i..], x);
  }

  /** What is found in something found in `s` is found in `s`. */
  lemma ContainsTrans(s: string, x: string, y: string)
    requires Contains(s, x) && Contains(x, y)
    ensures Contains(s, y)
  {
    var i :| 0 <= i <= |s| && StartsWith(s[i..], x);
    var j :| 0 <= j <= |x| && StartsWith(x[j..], y);
    forall k | 0 <= k < |y|
      ensures s[i + j + k] == y[k]
    {
      assert x[j..][..|y|][k] == y[k];
      assert s[i..][..|x|][j + k] == x[j + k];
    }
    assert s[i + j..][..|y|] == y;
  }

  /** Every part is found in the joined string. */
  lemma {:induction false} JoinContains(parts: seq<string>, sep: string, k: nat)
    requires k < |parts|
    ensures Contains(Join(parts, sep), parts[k])
    decreases |parts|
  {
    if |parts| == 1 {
      ContainsMiddle("", parts[0], "");
      assert "" + parts[0] + "" == parts[0];
    } else if k == 0 {
      ContainsMiddle("", parts[0], sep + Join(parts[1..], sep));
      assert "" + parts[0] + (sep + Join(parts[1..], sep)) == Join(parts, sep);
    } else {
      JoinContains(parts[1..], sep, k - 1);
      var rest := Join(parts[1..], sep);
      ContainsMiddle(parts[0] + sep, rest, "");
      assert parts[0] + sep + rest + "" == Join(parts, sep);
      ContainsTrans(Join(parts, sep), rest, parts[k]);
    }
  }

  /** A joined list starts with its first part. */
  lemma JoinStartsWithFirst(parts: seq<string>, sep: string)
    requires parts != []
    ensures StartsWith(Join(parts, sep), parts[0])
  {
    if |parts| > 1 {
      StartsWithConcat(parts[0], sep + Join(parts[1..], sep));
      assert parts[0] + (sep + Join(parts[1..], sep)) == Join(parts, sep);
    }
  }

  /** `sep` occurs in `s` at index `j`. */
  predicate OccursAt(s: string, sep: string, j: nat) {
    j + |sep| <= |s| && s[j..j + |sep|] == sep
  }

  /** The first index from `i` on at which `sep` occurs in `s`, as `s.find(sep, i)`. */
  function FindFrom(s: string, sep: string, i: nat): (r: Option<nat>)
    requires |sep| > 0
    ensures r.Some? ==> i <= r.value && OccursAt(s, sep, r.value)
    ensures r.Some? ==> forall j :: i <= j < r.value ==> !OccursAt(s, sep, j)
    ensures r.None? ==> forall j :: i <= j ==> !OccursAt(s, sep, j)
    decreases |s| - i
  {
    if i + |sep| > |s| then None
    else if OccursAt(s, sep, i) then Some(i)
    else FindFrom(s, sep, i + 1)
  }

  /** `s.split(sep)` for a non-empty separator: never empty, splits at every
      non-overlapping occurrence from the left. */
  function Split(s: string, sep: string): (parts: seq<string>)
    requires |sep| > 0
    ensures |parts| >= 1
    decreases |s|
  {
    match FindFrom(s, sep, 0)
    case None => [s]
    case Some(i) => [s[..i]] + Split(s[i + |sep|..], sep)
  }

  /** Joining the pieces of a split restores the original string. */
  lemma {:induction false} JoinSplit(s: string, sep: string)
    requires |sep| > 0
    ensures Join(Split(s, sep), sep) == s
    decreases |s|
  {
    match FindFrom(s, sep, 0)
    case None =>
    case Some(i) =>
      var rest := s[i + |sep|..];
      var tail := Split(rest, sep);
      JoinSplit(rest, sep);
      var parts := [s[..i]] + tail;
      assert Split(s, sep) == parts;
      assert parts[0] == s[..i] && parts[1..] == tail;
      assert Join(parts, sep) == s[..i] + sep + rest;
      assert s == s[..i] + s[i..i + |sep|] + rest;
  }

  /** The first `c` in `a + [c] + b` is the one after `a` when `a` has none. */
  lemma FindFirst(a: string, c: char, b: string)
    requires c !in a
    ensures FindFrom(a + [c] + b, [c], 0) == Some(|a|)
  {
    var s := a + [c] + b;
    assert OccursAt(s, [c], |a|) by { assert s[|a|..|a| + 1] == [c]; }
    forall j | 0 <= j < |a| ensures !OccursAt(s, [c], j) {
      assert s[j..j + 1] == [a[j]];
    }
  }

  /** Splitting `a + c + b` on the single character `c` that `a` lacks
      yields `a` followed by the pieces of `b`. */
  lemma SplitCons(a: string, c: char, b: string)
    requires c !in a
    ensures Split(a + [c] + b, [c]) == [a] + Split(b, [c])
  {
    var s := a + [c] + b;
    FindFirst(a, c, b);
    assert s[..|a|] == a;
    assert s[|a| + 1..] == b;
  }


  /** A string free of `c` splits into itself alone. */
  lemma SplitNone(a: string, c: char)
    requires c !in a
    ensures Split(a, [c]) == [a]
  {
    forall j | 0 <= j < |a| ensures !OccursAt(a, [c], j) {
      assert a[j..j + 1] == [a[j]];
    }
    assert FindFrom(a, [c], 0) == None;
  }

  /** Splitting the join of `c`-free pieces on `c` gives the pieces back. */
  lemma {:induction false} SplitJoin(parts: seq<string>, c: char)
    requires |parts| >= 1
    requires forall k :: 0 <= k < |parts| ==> c !in parts[k]
    ensures Split(Join(parts, [c]), [c]) == parts
    decreases |parts|
  {
    if |parts| == 1 {
      SplitNone(parts[0], c);
    } else {
      SplitJoin(parts[1..], c);
      SplitCons(parts[0], c, Join(parts[1..], [c]));
      assert parts == [parts[0]] + parts[1..];
    }
  }
}
