/** String helpers shared by the model: prefix/suffix/substring tests, Python's
    `str.split` on one character, `str.lstrip` of one character, decimal digits,
    code-point order on strings and the sort that Python's `sorted` performs on names. */
module Strings {
  import opened Wrappers

  predicate StartsWith(s: string, prefix: string) {
    prefix <= s
  }

  predicate EndsWith(s: string, suffix: string) {
    |suffix| <= |s| && s[|s| - |suffix|..] == suffix
  }

  /** Python's `sub in s`. */
  predicate Contains(s: string, sub: string)
    decreases |s|
  {
    sub <= s || (|s| > 0 && Contains(s[1..], sub))
  }

  lemma {:induction false} ContainsAt(s: string, sub: string, i: nat)
    requires i + |sub| <= |s| && s[i..i + |sub|] == sub
    ensures Contains(s, sub)
    decreases i
  {
    if i == 0 {
      assert sub <= s;
    } else {
      assert s[1..][i - 1..i - 1 + |sub|] == sub;
      ContainsAt(s[1..], sub, i - 1);
    }
  }

  lemma {:induction false} ContainsWitness(s: string, sub: string) returns (i: nat)
    requires Contains(s, sub)
    ensures i + |sub| <= |s| && s[i..i + |sub|] == sub
    decreases |s|
  {
    if sub <= s {
      i := 0;
    } else {
      var j := ContainsWitness(s[1..], sub);
      i := j + 1;
      assert s[i..i + |sub|] == s[1..][j..j + |sub|];
    }
  }

  /** Every character of a substring occurs in the string that contains it. */
  lemma {:induction false} ContainsChar(s: string, sub: string, k: nat)
    requires Contains(s, sub) && k < |sub|
    ensures sub[k] in s
  {
    var i := ContainsWitness(s, sub);
    assert s[i + k] == sub[k];
  }

  /** Python's `s.lstrip(c)` for a single character. */
  function LStrip(s: string, c: char): (r: string)
    ensures |r| <= |s| && r == s[|s| - |r|..]
    ensures |r| > 0 ==> r[0] != c
    ensures forall i :: 0 <= i < |s| - |r| ==> s[i] == c
    decreases |s|
  {
    if |s| > 0 && s[0] == c then LStrip(s[1..], c) else s
  }

  /** Python's `s.split(c)` for a single-character separator. */
  function Split(s: string, c: char): (r: seq<string>)
    ensures |r| >= 1
    decreases |s|
  {
    if |s| == 0 then [""]
    else if s[0] == c then [""] + Split(s[1..], c)
    else
      var rest := Split(s[1..], c);
      [[s[0]] + rest[0]] + rest[1..]
  }

  lemma {:induction false} SplitNoSeparator(s: string, c: char)
    requires c !in s
    ensures Split(s, c) == [s]
    decreases |s|
  {
    if |s| > 0 {
      SplitNoSeparator(s[1..], c);
      assert [s[0]] + s[1..] == s;
    }
  }

  lemma {:induction false} SplitAppend(a: string, c: char, b: string)
    requires c !in a
    ensures Split(a + [c] + b, c) == [a] + Split(b, c)
    decreases |a|
  {
    if |a| == 0 {
      assert a + [c] + b == [c] + b;
      assert ([c] + b)[1..] == b;
    } else {
      assert (a + [c] + b)[1..] == a[1..] + [c] + b;
      SplitAppend(a[1..], c, b);
      assert [a[0]] + a[1..] == a;
    }
  }

  predicate IsDigit(ch: char) {
    '0' <= ch <= '9'
  }

  predicate IsDigits(s: string) {
    forall i :: 0 <= i < |s| ==> IsDigit(s[i])
  }

  function DigitChar(d: nat): (ch: char)
    requires d < 10
    ensures IsDigit(ch)
  {
    "0123456789"[d]
  }

  function DigitValue(ch: char): (d: nat)
    requires IsDigit(ch)
    ensures d < 10
  {
    (ch as int - '0' as int) as nat
  }

  lemma DigitRoundTrip(d: nat)
    requires d < 10
    ensures DigitValue(DigitChar(d)) == d
  {
  }

  /** The decimal reading of a string of digits; leading zeros are accepted, as by `int()`. */
  function DigitsToNat(s: string): nat
    requires IsDigits(s)
    decreases |s|
  {
    if |s| == 0 then 0 else DigitsToNat(s[..|s| - 1]) * 10 + DigitValue(s[|s| - 1])
  }

  /** Python's `str(n)` for a natural number. */
  function NatToString(n: nat): (r: string)
    ensures |r| > 0 && IsDigits(r)
    decreases n
  {
    if n < 10 then [DigitChar(n)] else NatToString(n / 10) + [DigitChar(n % 10)]
  }

  lemma {:induction false} NatToStringRoundTrip(n: nat)
    ensures DigitsToNat(NatToString(n)) == n
    decreases n
  {
    var s := NatToString(n);
    if n < 10 {
      DigitRoundTrip(n);
    } else {
      NatToStringRoundTrip(n / 10);
      assert s[..|s| - 1] == NatToString(n / 10);
      DigitRoundTrip(n % 10);
    }
  }

  /** `str(i)` for an integer of either sign. */
  function IntToString(i: int): string {
    if i < 0 then "-" + NatToString(-i) else NatToString(i)
  }

  /** Python's `int(s)`, restricted to strings of ASCII digits. */
  function ParseNat(s: string): (r: Option<nat>)
    ensures r.Some? <==> |s| > 0 && IsDigits(s)
  {
    if |s| > 0 && IsDigits(s) then Some(DigitsToNat(s)) else None
  }

  lemma {:induction false} ParseNatToString(n: nat)
    ensures ParseNat(NatToString(n)) == Some(n)
  {
    NatToStringRoundTrip(n);
  }

  /** ASCII lower-casing, the part of `str.lower` the model needs. */
  function ToLower(s: string): (r: string)
    ensures |r| == |s|
    ensures forall i :: 0 <= i < |s| ==> r[i] == (if 'A' <= s[i] <= 'Z' then (s[i] as int + 32) as char else s[i])
    decreases |s|
  {
    if |s| == 0 then ""
    else [if 'A' <= s[0] <= 'Z' then (s[0] as int + 32) as char else s[0]] + ToLower(s[1..])
  }

  function UpperChar(c: char): char {
    if 'a' <= c <= 'z' then (c as int - 32) as char else c
  }

  /** `str.capitalize` on ASCII: the first character upper-cased, the rest lower-cased. */
  function Capitalize(s: string): (r: string)
    ensures |r| == |s|
    ensures |s| > 0 ==> r[0] == UpperChar(s[0]) && r[1..] == ToLower(s[1..])
  {
    if s == [] then "" else [UpperChar(s[0])] + ToLower(s[1..])
  }

  /** Index of the last occurrence of `c`. */
  function LastIndexOf(s: string, c: char): (r: Option<nat>)
    ensures r.Some? ==> r.value < |s| && s[r.value] == c && forall j :: r.value < j < |s| ==> s[j] != c
    ensures r.None? ==> c !in s
    decreases |s|
  {
    if s == [] then None
    else if s[|s| - 1] == c then Some(|s| - 1)
    else LastIndexOf(s[..|s| - 1], c)
  }

  /** Number of leading `c` characters. */
  function LeadingCount(s: string, c: char): (r: nat)
    ensures r <= |s| && (forall j :: 0 <= j < r ==> s[j] == c) && (r < |s| ==> s[r] != c)
    decreases |s|
  {
    if s == [] || s[0] != c then 0 else 1 + LeadingCount(s[1..], c)
  }

  /** `os.path.splitext(path)[1]` for POSIX paths: the final component's text from its last
      dot, unless every character before that dot is a dot as well. */
  function Extension(path: string): (r: string)
    ensures r == "" || (r[0] == '.' && '/' !in r && EndsWith(path, r))
  {
    var base := match LastIndexOf(path, '/') case Some(k) => path[k + 1..] case None => path;
    var lead := LeadingCount(base, '.');
    match LastIndexOf(base[lead..], '.')
    case Some(k) => base[lead + k..]
    case None => ""
  }

  /** Python's `a <= b` on strings: lexicographic order by code point. */
  predicate LexLe(a: string, b: string)
    decreases |a|
  {
    |a| == 0 || (|b| > 0 && (a[0] < b[0] || (a[0] == b[0] && LexLe(a[1..], b[1..]))))
  }

  lemma {:induction false} LexLeTotal(a: string, b: string)
    ensures LexLe(a, b) || LexLe(b, a)
    decreases |a|
  {
    if |a| > 0 && |b| > 0 && a[0] == b[0] {
      LexLeTotal(a[1..], b[1..]);
    }
  }

  lemma {:induction false} LexLeTrans(a: string, b: string, c: string)
    requires LexLe(a, b) && LexLe(b, c)
    ensures LexLe(a, c)
    decreases |a|
  {
    if |a| > 0 && a[0] == b[0] && b[0] == c[0] {
      LexLeTrans(a[1..], b[1..], c[1..]);
    }
  }

  lemma {:induction false} LexLeAntisym(a: string, b: string)
    requires LexLe(a, b) && LexLe(b, a)
    ensures a == b
    decreases |a|
  {
    if |a| > 0 {
      LexLeAntisym(a[1..], b[1..]);
      assert a == [a[0]] + a[1..] && b == [b[0]] + b[1..];
    }
  }

  /** `names` lists every element of `s` once and nothing else: a Python list built by
      iterating over a set, in whatever order the set yields. */
  predicate Enumerates(names: seq<string>, s: set<string>) {
    (forall i, j :: 0 <= i < j < |names| ==> names[i] != names[j])
    && (forall x :: x in names ==> x in s)
    && (forall x :: x in s ==> x in names)
  }

  /** An enumeration has as many entries as the set has elements. */
  lemma {:induction false} EnumerationSize(names: seq<string>, s: set<string>)
    requires Enumerates(names, s)
    ensures |names| == |s|
    decreases |names|
  {
    if names != [] {
      var init := names[..|names| - 1];
      var last := names[|names| - 1];
      assert forall x :: x in init ==> x in names;
      assert last !in init by {
        forall i | 0 <= i < |init| ensures init[i] != last {
          assert names[i] != names[|names| - 1];
        }
      }
      assert forall x :: x in names <==> x in init || x == last;
      EnumerationSize(init, s - {last});
    }
  }

  predicate SortedNames(s: seq<string>) {
    forall i, j :: 0 <= i < j < |s| ==> LexLe(s[i], s[j])
  }

  function InsertName(x: string, s: seq<string>): (r: seq<string>)
    decreases |s|
  {
    if s == [] then [x]
    else if LexLe(x, s[0]) then [x] + s
    else [s[0]] + InsertName(x, s[1..])
  }

  /** Python's `sorted(names)`. */
  function SortNames(s: seq<string>): (r: seq<string>)
    decreases |s|
  {
    if s == [] then [] else InsertName(s[0], SortNames(s[1..]))
  }

  lemma {:induction false} InsertNameMultiset(x: string, s: seq<string>)
    ensures multiset(InsertName(x, s)) == multiset(s) + multiset{x}
    decreases |s|
  {
    if s != [] && !LexLe(x, s[0]) {
      InsertNameMultiset(x, s[1..]);
      assert s == [s[0]] + s[1..];
    }
  }

  lemma {:induction false} InsertNameLowerBound(y: string, x: string, s: seq<string>)
    requires LexLe(y, x) && forall k :: 0 <= k < |s| ==> LexLe(y, s[k])
    ensures forall k :: 0 <= k < |InsertName(x, s)| ==> LexLe(y, InsertName(x, s)[k])
    decreases |s|
  {
    if s != [] && !LexLe(x, s[0]) {
      InsertNameLowerBound(y, x, s[1..]);
    }
  }

  lemma {:induction false} InsertNameFacts(x: string, s: seq<string>)
    requires SortedNames(s)
    ensures SortedNames(InsertName(x, s))
    ensures multiset(InsertName(x, s)) == multiset(s) + multiset{x}
    decreases |s|
  {
    InsertNameMultiset(x, s);
    if s == [] {
    } else if LexLe(x, s[0]) {
      var r := [x] + s;
      forall i, j | 0 <= i < j < |r| ensures LexLe(r[i], r[j]) {
        if i == 0 && j > 1 { LexLeTrans(x, s[0], s[j - 1]); }
      }
    } else {
      InsertNameFacts(x, s[1..]);
      LexLeTotal(x, s[0]);
      InsertNameLowerBound(s[0], x, s[1..]);
    }
  }

  lemma {:induction false} SortNamesFacts(s: seq<string>)
    ensures SortedNames(SortNames(s))
    ensures multiset(SortNames(s)) == multiset(s)
    decreases |s|
  {
    if s != [] {
      SortNamesFacts(s[1..]);
      InsertNameFacts(s[0], SortNames(s[1..]));
      assert s == [s[0]] + s[1..];
    }
  }

  /** A string contained in `b` is contained in `a + b` and in `b + c`. */
  lemma ContainsConcat(a: string, b: string, c: string, sub: string)
    requires Contains(b, sub)
    ensures Contains(a + b, sub) && Contains(b + c, sub)
  {
    var i := ContainsWitness(b, sub);
    assert (a + b)[|a| + i..|a| + i + |sub|] == sub;
    ContainsAt(a + b, sub, |a| + i);
    assert (b + c)[i..i + |sub|] == sub;
    ContainsAt(b + c, sub, i);
  }

  /** `sep.join(items)`: the items with `sep` between neighbours; it begins with the first item. */
  function Join(sep: string, items: seq<string>): (r: string)
    ensures items == [] ==> r == ""
    ensures items != [] ==> StartsWith(r, items[0])
    decreases |items|
  {
    if items == [] then "" else if |items| == 1 then items[0] else items[0] + sep + Join(sep, items[1..])
  }

  /** Every item occurs in the joined string. */
  lemma {:induction false} JoinContains(sep: string, items: seq<string>, i: nat)
    requires i < |items|
    ensures Contains(Join(sep, items), items[i])
    decreases |items|
  {
    if i == 0 {
      assert Join(sep, items)[0..|items[0]|] == items[0];
      ContainsAt(Join(sep, items), items[0], 0);
    } else {
      JoinContains(sep, items[1..], i - 1);
      ContainsConcat(items[0] + sep, Join(sep, items[1..]), "", items[i]);
    }
  }
}
