/**
 * The Python string and path built-ins that the file tools lean on
 * (`str.lower`, `str.strip`, `str.split(sep)[0]`, `str.replace`, `in`,
 * `int()`, the `:02` format, `os.path.splitext`, `Path.stem`, `Path /`)
 * and Python's insertion-ordered `dict`.
 *
 * Characters are modelled on ASCII: a digit is `0`-`9`, a letter is `A`-`Z`
 * or `a`-`z`, and lower-casing folds only `A`-`Z`.
 */
module Text {

  type String = seq<char>

  datatype Option<+T> = None | Some(value: T)

  // ---------------------------------------------------------------------------
  // Character classes
  // ---------------------------------------------------------------------------

  predicate IsDigit(c: char) { '0' <= c <= '9' }
  predicate IsUpper(c: char) { 'A' <= c <= 'Z' }
  predicate IsLowerLetter(c: char) { 'a' <= c <= 'z' }
  predicate IsAlnum(c: char) { IsDigit(c) || IsUpper(c) || IsLowerLetter(c) }

  /** `\w`: a letter, a digit or the underscore. */
  predicate IsWordChar(c: char) { IsAlnum(c) || c == '_' }

  /** `[\W_]`: a non-word character or the underscore, i.e. anything but a letter or digit. */
  predicate IsSep(c: char) { !IsAlnum(c) }

  /** The characters `\s`, `str.strip()` and `int()` treat as whitespace. */
  const Whitespace: set<char> :=
    {' ', '\t', '\n', '\U{B}', '\U{C}', '\r', '\U{1C}', '\U{1D}', '\U{1E}', '\U{1F}'}

  /** Membership in `Whitespace`, written as character ranges. */
  predicate IsSpace(c: char) { c == ' ' || '\t' <= c <= '\r' || '\U{1C}' <= c <= '\U{1F}' }

  lemma SpaceIsWhitespace(c: char)
    ensures IsSpace(c) <==> c in Whitespace
  {
  }

  lemma AlnumNotSpace(c: char)
    requires IsAlnum(c)
    ensures !IsSpace(c)
  {
  }

  lemma DigitNotSpace(c: char)
    ensures IsSpace(c) ==> !IsDigit(c)
  {
  }

  lemma DigitNotWhitespace(c: char)
    requires IsDigit(c)
    ensures c !in Whitespace
  {
  }

  /** A run of characters all of one class. */
  predicate All(s: String, p: char -> bool) { forall i :: 0 <= i < |s| ==> p(s[i]) }

  predicate AllDigits(s: String) { All(s, IsDigit) }

  /** Length of the longest run of `p`-characters starting at `i`. */
  function RunOf(s: String, i: nat, p: char -> bool): (n: nat)
    requires i <= |s|
    ensures i + n <= |s|
    decreases |s| - i
  {
    if i < |s| && p(s[i]) then 1 + RunOf(s, i + 1, p) else 0
  }

  /**
   * The run is made of `p`-characters and stops at the end of `s` or at one
   * that is not. (A lemma rather than a postcondition of `RunOf`, so that
   * proofs which do not need it do not carry its quantifier.)
   */
  lemma {:induction false} RunOfSpans(s: String, i: nat, p: char -> bool)
    requires i <= |s|
    ensures forall k :: i <= k < i + RunOf(s, i, p) ==> p(s[k])
    ensures i + RunOf(s, i, p) == |s| || !p(s[i + RunOf(s, i, p)])
    decreases |s| - i
  {
    if i < |s| && p(s[i]) {
      RunOfSpans(s, i + 1, p);
    }
  }

  lemma {:induction false} RunOfAtLeast(s: String, i: nat, p: char -> bool, n: nat)
    requires i + n <= |s|
    requires forall k :: i <= k < i + n ==> p(s[k])
    ensures n <= RunOf(s, i, p)
  {
    RunOfSpans(s, i, p);
  }

  // ---------------------------------------------------------------------------
  // Lower-casing
  // ---------------------------------------------------------------------------

  function Lower(c: char): (r: char)
    ensures !IsUpper(r)
    ensures IsUpper(c) ==> IsLowerLetter(r)
    ensures IsDigit(r) <==> IsDigit(c)
    ensures IsAlnum(r) <==> IsAlnum(c)
    ensures !IsUpper(c) ==> r == c
  {
    if IsUpper(c) then (c as int + 32) as char else c
  }

  /** `str.lower()` */
  function LowerStr(s: String): (r: String)
    ensures |r| == |s|
    ensures forall i :: 0 <= i < |s| ==> r[i] == Lower(s[i])
  {
    seq(|s|, i requires 0 <= i < |s| => Lower(s[i]))
  }

  predicate IsLowerStr(s: String) { forall i :: 0 <= i < |s| ==> !IsUpper(s[i]) }

  lemma LowerStrIsLower(s: String)
    ensures IsLowerStr(LowerStr(s))
  {
  }

  lemma LowerStrConcat(a: String, b: String)
    ensures LowerStr(a + b) == LowerStr(a) + LowerStr(b)
  {
  }

  lemma LowerStrOfLower(s: String)
    requires IsLowerStr(s)
    ensures LowerStr(s) == s
  {
  }

  // ---------------------------------------------------------------------------
  // Substrings: `sub in s`, `s.find(sub)`, `s.split(sep)[0]`, `s.endswith(x)`
  // ---------------------------------------------------------------------------

  predicate OccursAt(s: String, sub: String, i: nat)
  {
    i + |sub| <= |s| && s[i..i + |sub|] == sub
  }

  /** First index at or after `i` where `sub` occurs. */
  function FindFrom(s: String, sub: String, i: nat): (r: Option<nat>)
    requires i <= |s|
    ensures r.Some? ==> i <= r.value && OccursAt(s, sub, r.value)
    ensures r.Some? ==> forall k :: i <= k < r.value ==> !OccursAt(s, sub, k)
    ensures r.None? ==> forall k :: i <= k ==> !OccursAt(s, sub, k)
    decreases |s| - i
  {
    if OccursAt(s, sub, i) then Some(i)
    else if i == |s| then None
    else FindFrom(s, sub, i + 1)
  }

  function Find(s: String, sub: String): Option<nat>
  {
    FindFrom(s, sub, 0)
  }

  /** `sub in s` */
  predicate Contains(s: String, sub: String)
  {
    Find(s, sub).Some?
  }

  lemma ContainsIff(s: String, sub: String)
    ensures Contains(s, sub) <==> exists k :: OccursAt(s, sub, k)
  {
    if !Contains(s, sub) {
      forall k ensures !OccursAt(s, sub, k) {
        assert 0 <= k;
      }
    }
  }

  lemma ContainsAt(s: String, sub: String, k: nat)
    requires OccursAt(s, sub, k)
    ensures Contains(s, sub)
  {
    ContainsIff(s, sub);
  }

  /** `s.split(sep)[0]`: the text before the first occurrence of `sep`. */
  function SplitHead(s: String, sep: String): (r: String)
    requires sep != []
    ensures |r| <= |s| && r == s[..|r|]
    ensures forall k :: 0 <= k < |r| ==> !OccursAt(s, sep, k)
    ensures |r| < |s| ==> OccursAt(s, sep, |r|)
    ensures |r| == |s| ==> !Contains(s, sep)
  {
    match Find(s, sep)
    case Some(k) => s[..k]
    case None => s
  }

  lemma SliceOfSlice(s: String, i: nat, j: nat, d: nat)
    requires i + d <= j <= |s|
    ensures s[i..j][..d] == s[i..i + d]
  {
  }

  /** The head is everything before the first occurrence. */
  lemma SplitHeadAt(s: String, sep: String, k: nat)
    requires sep != [] && OccursAt(s, sep, k)
    requires forall k' :: 0 <= k' < k ==> !OccursAt(s, sep, k')
    ensures SplitHead(s, sep) == s[..k]
  {
    var h := SplitHead(s, sep);
    if |h| == |s| {
      ContainsAt(s, sep, k);
    }
  }

  /** `k` is where `sub` first occurs in `s`. */
  predicate FirstAt(s: String, sub: String, k: nat)
  {
    OccursAt(s, sub, k) && forall j :: 0 <= j < k ==> !OccursAt(s, sub, j)
  }

  /** `s.split(sep)[0]` cuts at the first occurrence of `sep`, and keeps all of `s` without one. */
  lemma SplitHeadCut(s: String, sep: String)
    requires sep != []
    ensures forall k: nat :: FirstAt(s, sep, k) ==> SplitHead(s, sep) == s[..k]
    ensures !Contains(s, sep) ==> SplitHead(s, sep) == s
  {
    forall k: nat | FirstAt(s, sep, k)
      ensures SplitHead(s, sep) == s[..k]
    {
      SplitHeadAt(s, sep, k);
    }
  }

  /** Splitting at text that occurs at `p` cuts at its first occurrence, which is at or before `p`. */
  lemma SplitHeadOccurring(s: String, sep: String, p: nat) returns (k: nat)
    requires sep != [] && OccursAt(s, sep, p)
    ensures k <= p && FirstAt(s, sep, k) && SplitHead(s, sep) == s[..k]
  {
    ContainsAt(s, sep, p);
    k := |SplitHead(s, sep)|;
  }

  /** `s.startswith(prefix)` */
  predicate IsPrefix(prefix: String, s: String)
  {
    |prefix| <= |s| && s[..|prefix|] == prefix
  }

  /** `s.endswith(suffix)` */
  predicate EndsWith(s: String, suffix: String)
  {
    |suffix| <= |s| && s[|s| - |suffix|..] == suffix
  }

  /** `any(item in s for item in items)` */
  function ContainsAny(s: String, items: seq<String>): (b: bool)
    ensures b <==> exists i :: 0 <= i < |items| && Contains(s, items[i])
  {
    if items == [] then false
    else Contains(s, items[0]) || ContainsAny(s, items[1..])
  }

  lemma {:induction false} ContainsAnyIff(s: String, items: seq<String>)
    ensures ContainsAny(s, items) <==> exists i, k :: 0 <= i < |items| && OccursAt(s, items[i], k)
  {
    forall i | 0 <= i < |items| {
      ContainsIff(s, items[i]);
    }
  }

  /** `any(s.endswith(x) for x in suffixes)` */
  function EndsWithAny(s: String, suffixes: seq<String>): (b: bool)
    ensures b <==> exists i :: 0 <= i < |suffixes| && EndsWith(s, suffixes[i])
  {
    if suffixes == [] then false
    else EndsWith(s, suffixes[0]) || EndsWithAny(s, suffixes[1..])
  }

  // ---------------------------------------------------------------------------
  // `str.replace(pat, rep)`: every non-overlapping occurrence, left to right
  // ---------------------------------------------------------------------------

  function Replace(s: String, pat: String, rep: String): (r: String)
    decreases |s|
  {
    if pat == [] then InsertEverywhere(s, rep)
    else if |s| < |pat| then s
    else if s[..|pat|] == pat then rep + Replace(s[|pat|..], pat, rep)
    else [s[0]] + Replace(s[1..], pat, rep)
  }

  /** `s.replace("", rep)` puts `rep` before every character and at the end. */
  function InsertEverywhere(s: String, rep: String): String
  {
    if s == [] then rep else rep + [s[0]] + InsertEverywhere(s[1..], rep)
  }

  /** A character that is neither in `s` nor in `rep` is not in the result. */
  lemma {:induction false} ReplaceKeepsOut(s: String, pat: String, rep: String, c: char)
    requires c !in s && c !in rep
    ensures c !in Replace(s, pat, rep)
    decreases |s|
  {
    if pat == [] {
      InsertEverywhereKeepsOut(s, rep, c);
    } else if |s| < |pat| {
    } else if s[..|pat|] == pat {
      ReplaceKeepsOut(s[|pat|..], pat, rep, c);
    } else {
      ReplaceKeepsOut(s[1..], pat, rep, c);
    }
  }

  lemma {:induction false} InsertEverywhereKeepsOut(s: String, rep: String, c: char)
    requires c !in s && c !in rep
    ensures c !in InsertEverywhere(s, rep)
  {
    if s != [] {
      InsertEverywhereKeepsOut(s[1..], rep, c);
    }
  }

  /** Replacing a single character by text that lacks it leaves none of it behind. */
  lemma {:induction false} ReplaceCharRemoves(s: String, c: char, rep: String)
    requires c !in rep
    ensures c !in Replace(s, [c], rep)
    decreases |s|
  {
    if |s| >= 1 {
      if s[..1] == [c] {
        ReplaceCharRemoves(s[1..], c, rep);
      } else {
        ReplaceCharRemoves(s[1..], c, rep);
      }
    }
  }

  /** `s` with every `c` changed to `d`. */
  function SwapChar(s: String, c: char, d: char): (r: String)
    ensures |r| == |s| && forall i :: 0 <= i < |s| ==> r[i] == if s[i] == c then d else s[i]
  {
    seq(|s|, i requires 0 <= i < |s| => if s[i] == c then d else s[i])
  }

  /** `s.replace(c, d)` for single characters changes each `c` in place. */
  lemma {:induction false} ReplaceCharByChar(s: String, c: char, d: char)
    ensures Replace(s, [c], [d]) == SwapChar(s, c, d)
  {
    if s != [] {
      ReplaceCharByChar(s[1..], c, d);
      assert SwapChar(s, c, d) == [if s[0] == c then d else s[0]] + SwapChar(s[1..], c, d);
      assert s[..1] == [c] <==> s[0] == c;
    }
  }

  /** A pattern that occurs nowhere is replaced nowhere. */
  lemma {:induction false} ReplaceNowhere(s: String, pat: String, rep: String)
    requires pat != [] && forall k :: !OccursAt(s, pat, k)
    ensures Replace(s, pat, rep) == s
    decreases |s|
  {
    if |s| >= |pat| {
      assert !OccursAt(s, pat, 0);
      forall k | 0 <= k
        ensures !OccursAt(s[1..], pat, k)
      {
        assert !OccursAt(s, pat, k + 1);
        if k + |pat| <= |s[1..]| {
          assert s[1..][k..k + |pat|] == s[k + 1..k + 1 + |pat|];
        }
      }
      ReplaceNowhere(s[1..], pat, rep);
      assert [s[0]] + s[1..] == s;
    }
  }

  /** Lower-casing and removing characters that are not letters commute. */
  lemma {:induction false} LowerRemoveChars(s: String, cs: set<char>)
    requires forall c :: c in cs ==> !IsUpper(c) && !IsLowerLetter(c)
    ensures LowerStr(RemoveChars(s, cs)) == RemoveChars(LowerStr(s), cs)
  {
    if s != [] {
      LowerRemoveChars(s[1..], cs);
      var l := LowerStr(s);
      assert l[0] == Lower(s[0]) && l[1..] == LowerStr(s[1..]);
      assert Lower(s[0]) in cs <==> s[0] in cs;
      var h := if s[0] in cs then [] else [s[0]];
      LowerStrConcat(h, RemoveChars(s[1..], cs));
    }
  }

  /** The characters of `s` outside `cs`, in order. */
  function RemoveChars(s: String, cs: set<char>): (r: String)
    ensures forall c :: c in r ==> c in s && c !in cs
  {
    if s == [] then []
    else (if s[0] in cs then [] else [s[0]]) + RemoveChars(s[1..], cs)
  }

  /** Text in which the pattern cannot start is left unchanged. */
  lemma {:induction false} ReplaceAbsent(s: String, pat: String, rep: String)
    requires pat != [] && pat[0] !in s
    ensures Replace(s, pat, rep) == s
    decreases |s|
  {
    if |s| >= |pat| {
      assert s[0] != pat[0];
      ReplaceAbsent(s[1..], pat, rep);
      assert [s[0]] + s[1..] == s;
    }
  }

  /** `s.replace(c, "")` deletes exactly the occurrences of `c`. */
  lemma {:induction false} ReplaceCharByNothing(s: String, c: char)
    ensures Replace(s, [c], []) == RemoveChars(s, {c})
  {
    if s != [] {
      ReplaceCharByNothing(s[1..], c);
      if s[..1] == [c] {
        assert s[0] == c;
      } else {
        assert s[0] != c;
      }
    }
  }

  /** Removing characters that do not occur changes nothing. */
  lemma {:induction false} RemoveCharsNone(s: String, cs: set<char>)
    requires forall i :: 0 <= i < |s| ==> s[i] !in cs
    ensures RemoveChars(s, cs) == s
  {
    if s != [] {
      RemoveCharsNone(s[1..], cs);
      assert [s[0]] + s[1..] == s;
    }
  }

  lemma {:induction false} RemoveCharsConcat(a: String, b: String, cs: set<char>)
    ensures RemoveChars(a + b, cs) == RemoveChars(a, cs) + RemoveChars(b, cs)
  {
    if a == [] {
      assert a + b == b;
    } else {
      var h := if a[0] in cs then [] else [a[0]];
      calc {
        RemoveChars(a + b, cs);
        { assert (a + b)[0] == a[0] && (a + b)[1..] == a[1..] + b; }
        h + RemoveChars(a[1..] + b, cs);
        { RemoveCharsConcat(a[1..], b, cs); }
        h + (RemoveChars(a[1..], cs) + RemoveChars(b, cs));
        (h + RemoveChars(a[1..], cs)) + RemoveChars(b, cs);
      }
    }
  }

  lemma {:induction false} RemoveCharsTwice(s: String, a: set<char>, b: set<char>)
    ensures RemoveChars(RemoveChars(s, a), b) == RemoveChars(s, a + b)
  {
    if s != [] {
      RemoveCharsTwice(s[1..], a, b);
      var t := RemoveChars(s[1..], a);
      if s[0] !in a {
        assert RemoveChars(s, a) == [s[0]] + t;
        assert ([s[0]] + t)[1..] == t;
      } else {
        assert RemoveChars(s, a) == t;
      }
    }
  }

  // ---------------------------------------------------------------------------
  // `str.lstrip(chars)`, `str.rstrip(chars)`, `str.strip(chars)`
  // ---------------------------------------------------------------------------

  function LStrip(s: String, cs: set<char>): (r: String)
    ensures |r| <= |s| && r == s[|s| - |r|..]
    ensures r == [] || r[0] !in cs
    ensures forall i :: 0 <= i < |s| - |r| ==> s[i] in cs
  {
    if s != [] && s[0] in cs then LStrip(s[1..], cs) else s
  }

  function RStrip(s: String, cs: set<char>): (r: String)
    ensures |r| <= |s| && r == s[..|r|]
    ensures r == [] || r[|r| - 1] !in cs
    ensures forall i :: |r| <= i < |s| ==> s[i] in cs
  {
    if s != [] && s[|s| - 1] in cs then RStrip(s[..|s| - 1], cs) else s
  }

  /** `str.strip(chars)`; `str.strip()` is `Strip(s, Whitespace)`. */
  function Strip(s: String, cs: set<char>): String
  {
    RStrip(LStrip(s, cs), cs)
  }

  // ---------------------------------------------------------------------------
  // Decimal numbers: `int(text)` and `f"{n:02}"`
  // ---------------------------------------------------------------------------

  function DigitVal(c: char): nat
    requires IsDigit(c)
  {
    c as int - '0' as int
  }

  function Digit(d: nat): (c: char)
    requires d < 10
    ensures IsDigit(c) && DigitVal(c) == d
  {
    ('0' as int + d) as char
  }

  /** The value of a string of decimal digits. */
  function Value(s: String): nat
    requires AllDigits(s)
  {
    if s == [] then 0 else Value(s[..|s| - 1]) * 10 + DigitVal(s[|s| - 1])
  }

  lemma {:induction false} ValueBound(s: String)
    requires AllDigits(s)
    ensures |s| <= 4 ==> Value(s) <= 9999
    ensures |s| <= 2 ==> Value(s) <= 99
    ensures Value(s) < Pow10(|s|)
  {
    if s != [] {
      ValueBound(s[..|s| - 1]);
    }
  }

  function Pow10(n: nat): nat
  {
    if n == 0 then 1 else 10 * Pow10(n - 1)
  }

  lemma {:induction false} ValueLeadingZero(s: String)
    requires AllDigits(s)
    ensures AllDigits("0" + s) && Value("0" + s) == Value(s)
  {
    if s != [] {
      var t := s[..|s| - 1];
      ValueLeadingZero(t);
      assert ("0" + s)[..|"0" + s| - 1] == "0" + t;
    }
  }

  /** `str(n)` */
  function Decimal(n: nat): (r: String)
    ensures AllDigits(r) && r != [] && Value(r) == n
    ensures n < 10 ==> |r| == 1
    ensures 10 <= n < 100 ==> |r| == 2
    ensures 100 <= n < 1000 ==> |r| == 3
    ensures 1000 <= n < 10000 ==> |r| == 4
  {
    if n < 10 then [Digit(n)]
    else
      var r := Decimal(n / 10) + [Digit(n % 10)];
      assert r[..|r| - 1] == Decimal(n / 10);
      r
  }

  /** `f"{n:02}"`: at least two digits, zero-extended, never truncated. */
  function Pad2(n: nat): (r: String)
    ensures AllDigits(r) && Value(r) == n
    ensures 2 <= |r|
    ensures n < 100 ==> |r| == 2
    ensures n < 10000 ==> |r| <= 4
  {
    if n < 10 then (ValueLeadingZero(Decimal(n)); "0" + Decimal(n)) else Decimal(n)
  }

  /** `int(text)` for the texts it meets here: surrounding whitespace, then digits. */
  function PyInt(text: String): (r: Option<nat>)
    ensures r.Some? <==> Strip(text, Whitespace) != [] && AllDigits(Strip(text, Whitespace))
  {
    var t := Strip(text, Whitespace);
    if t != [] && AllDigits(t) then Some(Value(t)) else None
  }

  // ---------------------------------------------------------------------------
  // Paths
  // ---------------------------------------------------------------------------

  /** `Path(a) / b`: an empty part adds nothing and an absolute part replaces. */
  function JoinPath(a: String, b: String): (r: String)
    ensures b != [] && b[0] != '/' && a != [] ==>
      IsPrefix(a, r) && EndsWith(r, "/" + b) && |r| <= |a| + 1 + |b|
    ensures b != [] && (a == [] || b[0] == '/') ==> r == b
    ensures b == [] ==> r == a
    ensures a != [] ==> r != []
  {
    if b == [] then a
    else if a == [] || b[0] == '/' then b
    else if a[|a| - 1] == '/' then a + b
    else a + "/" + b
  }

  function LastIndexOf(s: String, c: char): (r: Option<nat>)
    ensures r.Some? ==> r.value < |s| && s[r.value] == c
    ensures r.Some? ==> forall k :: r.value < k < |s| ==> s[k] != c
    ensures r.None? ==> c !in s
  {
    if s == [] then None
    else if s[|s| - 1] == c then Some(|s| - 1)
    else LastIndexOf(s[..|s| - 1], c)
  }

  /**
   * `os.path.splitext(p)`: the extension starts at the last dot after the last
   * `/`, unless only dots precede it in that final component.
   */
  function SplitExt(p: String): (r: (String, String))
    ensures r.0 + r.1 == p
    ensures r.1 == [] || r.1[0] == '.'
    ensures r.1 != [] ==> '.' !in r.1[1..]
    ensures r.1 != [] ==> '/' !in r.1
  {
    match LastIndexOf(p, '.')
    case None => (p, [])
    case Some(dot) =>
      var start := match LastIndexOf(p, '/') case None => 0 case Some(sep) => sep + 1;
      if dot > start - 1 && exists k :: start <= k < dot && p[k] != '.' then
        assert p == p[..dot] + p[dot..];
        (p[..dot], p[dot..])
      else (p, [])
  }

  /**
   * A name with a character other than a dot after its last `/`, then a dot
   * and an extension free of dots and slashes, splits at that dot.
   */
  lemma SplitExtNamed(x: String, e: String, k: nat)
    requires k < |x| && x[k] != '.' && forall j :: k <= j < |x| ==> x[j] != '/'
    requires '.' !in e && '/' !in e
    ensures SplitExt(x + "." + e) == (x, "." + e)
  {
    var p := x + "." + e;
    assert p[|x|] == '.';
    assert forall j :: |x| < j < |p| ==> p[j] == e[j - |x| - 1];
    assert p[..|x|] == x && p[|x|..] == "." + e;
    assert p[k] != '.';
  }

  /**
   * `Path(name).stem` for a single path component: the text before the last
   * dot, when that dot is neither the first nor the last character.
   */
  function Stem(name: String): (r: String)
    ensures |r| <= |name| && r == name[..|r|]
    ensures |r| < |name| ==>
      0 < |r| < |name| - 1 && name[|r|] == '.' && forall k :: |r| < k < |name| ==> name[k] != '.'
    ensures |r| == |name| ==>
      forall i :: 0 < i < |name| - 1 && name[i] == '.' ==> name[|name| - 1] == '.'
  {
    match LastIndexOf(name, '.')
    case Some(i) => if 0 < i < |name| - 1 then name[..i] else name
    case None => name
  }

  // ---------------------------------------------------------------------------
  // Insertion-ordered dictionaries
  // ---------------------------------------------------------------------------

  /** A Python `dict`: keys in first-insertion order, each at most once. */
  type Dict = seq<(String, String)>

  predicate DistinctKeys(d: Dict)
  {
    forall i, j :: 0 <= i < j < |d| ==> d[i].0 != d[j].0
  }

  function Keys(d: Dict): set<String>
  {
    set i | 0 <= i < |d| :: d[i].0
  }

  lemma KeysCons(d: Dict)
    requires d != []
    ensures Keys(d) == {d[0].0} + Keys(d[1..])
  {
    forall x | x in Keys(d) ensures x in {d[0].0} + Keys(d[1..]) {
      var i :| 0 <= i < |d| && d[i].0 == x;
      if i > 0 { assert d[1..][i - 1].0 == x; }
    }
    forall x | x in Keys(d[1..]) ensures x in Keys(d) {
      var i :| 0 <= i < |d[1..]| && d[1..][i].0 == x;
      assert d[i + 1].0 == x;
    }
  }

  /** `d.get(k)` */
  function Get(d: Dict, k: String): (r: Option<String>)
    ensures r.Some? <==> k in Keys(d)
  {
    if d == [] then None
    else if d[0].0 == k then Some(d[0].1)
    else
      KeysCons(d);
      Get(d[1..], k)
  }

  /** `d[k] = v`: a new key goes last, an existing key keeps its place. */
  function Put(d: Dict, k: String, v: String): (r: Dict)
    ensures Get(r, k) == Some(v)
    ensures forall k' :: k' != k ==> Get(r, k') == Get(d, k')
    ensures Keys(r) == Keys(d) + {k}
    ensures DistinctKeys(d) ==> DistinctKeys(r)
  {
    if d == [] then [(k, v)]
    else if d[0].0 == k then
      var r := [(k, v)] + d[1..];
      KeysCons(d);
      KeysCons(r);
      assert r[1..] == d[1..];
      r
    else
      var t := Put(d[1..], k, v);
      var r := [d[0]] + t;
      KeysCons(d);
      KeysCons(r);
      assert r[1..] == t;
      ConsDistinct(d, t, k);
      r
  }

  /** Putting a new key behind the first entry keeps the keys distinct. */
  lemma ConsDistinct(d: Dict, t: Dict, k: String)
    requires d != [] && d[0].0 != k && Keys(t) == Keys(d[1..]) + {k}
    requires DistinctKeys(d[1..]) ==> DistinctKeys(t)
    ensures DistinctKeys(d) ==> DistinctKeys([d[0]] + t)
  {
    if DistinctKeys(d) {
      assert DistinctKeys(d[1..]) by {
        forall i, j | 0 <= i < j < |d[1..]| ensures d[1..][i].0 != d[1..][j].0 {
          assert d[1..][i] == d[i + 1] && d[1..][j] == d[j + 1];
        }
      }
      var r := [d[0]] + t;
      forall i, j | 0 <= i < j < |r| ensures r[i].0 != r[j].0 {
        if i == 0 {
          assert r[j].0 == t[j - 1].0;
          assert t[j - 1].0 in Keys(t);
          if r[j].0 != k {
            assert r[j].0 in Keys(d[1..]);
            var m :| 0 <= m < |d[1..]| && d[1..][m].0 == r[j].0;
            assert d[m + 1].0 == r[j].0;
          }
        } else {
          assert r[i] == t[i - 1] && r[j] == t[j - 1];
        }
      }
    }
  }

  /** `d.update(e)`: the entries of `e` put into `d` in order. */
  function Update(d: Dict, e: Dict): (r: Dict)
    ensures Keys(r) == Keys(d) + Keys(e)
    ensures DistinctKeys(d) ==> DistinctKeys(r)
  {
    if e == [] then d
    else
      var r := Put(Update(d, e[..|e| - 1]), e[|e| - 1].0, e[|e| - 1].1);
      assert Keys(e) == Keys(e[..|e| - 1]) + {e[|e| - 1].0} by {
        forall x | x in Keys(e) ensures x in Keys(e[..|e| - 1]) + {e[|e| - 1].0} {
          var i :| 0 <= i < |e| && e[i].0 == x;
          if i < |e| - 1 { assert e[..|e| - 1][i].0 == x; }
        }
      }
      r
  }

  /** Every entry of `d[k] = v` was already an entry of `d`, or is the new `(k, v)`. */
  lemma {:induction false} PutEntries(d: Dict, k: String, v: String)
    ensures forall m :: 0 <= m < |Put(d, k, v)| ==> Put(d, k, v)[m] == (k, v) || Put(d, k, v)[m] in d
  {
    if d != [] && d[0].0 != k {
      PutEntries(d[1..], k, v);
      var r := Put(d, k, v);
      assert r == [d[0]] + Put(d[1..], k, v);
      forall m | 0 <= m < |r| ensures r[m] == (k, v) || r[m] in d {
        if m > 0 {
          assert r[m] == Put(d[1..], k, v)[m - 1];
          if r[m] in d[1..] {
            var n :| 0 <= n < |d[1..]| && d[1..][n] == r[m];
            assert d[n + 1] == r[m];
          }
        }
      }
    }
  }

  /** Every entry of `d.update(e)` is an entry of `d` or of `e`. */
  lemma {:induction false} UpdateEntries(d: Dict, e: Dict)
    ensures forall m :: 0 <= m < |Update(d, e)| ==> Update(d, e)[m] in d || Update(d, e)[m] in e
  {
    if e != [] {
      var e' := e[..|e| - 1];
      UpdateEntries(d, e');
      PutEntries(Update(d, e'), e[|e| - 1].0, e[|e| - 1].1);
      var r := Update(d, e);
      forall m | 0 <= m < |r| ensures r[m] in d || r[m] in e {
        if r[m] != (e[|e| - 1].0, e[|e| - 1].1) {
          assert r[m] in Update(d, e');
          var n :| 0 <= n < |Update(d, e')| && Update(d, e')[n] == r[m];
          if r[m] in e' {
            var q :| 0 <= q < |e'| && e'[q] == r[m];
            assert e[q] == r[m];
          }
        }
      }
    }
  }
}
