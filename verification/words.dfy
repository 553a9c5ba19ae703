/** Text helpers that stand in for the Python string operations the contact
    bot relies on: `str.split()` with no separator, `' '.join(...)`, the
    substring test `x in s`, `str.lower()`, `str.isalnum()` and `"%d"`.
    Characters are restricted to ASCII where Python consults Unicode tables. */
module Words {

  datatype Option<T> = None | Some(value: T)

  /** ASCII characters that Python's `str.isspace` accepts:
      tab, line feed, vertical tab, form feed, carriage return,
      the four information separators 0x1C..0x1F, and space. */
  predicate IsSpace(c: char) {
    c == ' ' || ('\t' <= c <= '\r') || ('\U{1C}' <= c <= '\U{1F}')
  }

  /** A token that `str.split()` can produce: non-empty, no whitespace. */
  predicate IsWord(w: string) {
    |w| > 0 && forall i :: 0 <= i < |w| ==> !IsSpace(w[i])
  }

  /** The longest prefix of `s` that holds no whitespace. */
  function TakeWord(s: string): (w: string)
    ensures w <= s
    ensures forall i :: 0 <= i < |w| ==> !IsSpace(w[i])
    ensures |w| < |s| ==> IsSpace(s[|w|])
  {
    if s == [] || IsSpace(s[0]) then [] else [s[0]] + TakeWord(s[1..])
  }

  /** Python's `s.split()`: the maximal runs of non-whitespace, in order. */
  function Split(s: string): (ws: seq<string>)
    ensures forall w :: w in ws ==> IsWord(w)
    decreases |s|
  {
    if s == [] then []
    else if IsSpace(s[0]) then Split(s[1..])
    else
      var w := TakeWord(s);
      [w] + Split(s[|w|..])
  }

  /** Python's `' '.join(ws)`. */
  function Join(ws: seq<string>): string {
    if |ws| == 0 then ""
    else if |ws| == 1 then ws[0]
    else ws[0] + " " + Join(ws[1..])
  }

  /** The set of tokens of a space-joined name list. */
  function Tokens(s: string): set<string> {
    set w | w in Split(s)
  }

  /** Splitting every element of `xs` and concatenating the results. */
  function SplitAll(xs: seq<string>): seq<string> {
    if xs == [] then [] else Split(xs[0]) + SplitAll(xs[1..])
  }

  /** `t` occurs in `s` starting at index `i`. */
  predicate OccursAt(s: string, t: string, i: int) {
    0 <= i && i + |t| <= |s| && s[i..i + |t|] == t
  }

  /** Python's substring test `t in s`. */
  predicate Contains(s: string, t: string) {
    exists i :: 0 <= i <= |s| - |t| && OccursAt(s, t, i)
  }

  /** The first index at or after `i` where `pat` occurs in `s`. */
  function IndexFrom(s: string, pat: string, i: nat): (r: Option<nat>)
    requires i <= |s|
    ensures r.Some? ==> i <= r.value && OccursAt(s, pat, r.value)
    ensures r.Some? ==> forall j :: i <= j < r.value ==> !OccursAt(s, pat, j)
    ensures r.None? ==> forall j :: i <= j <= |s| - |pat| ==> !OccursAt(s, pat, j)
    decreases |s| - i
  {
    if i + |pat| > |s| then None
    else if s[i..i + |pat|] == pat then Some(i)
    else IndexFrom(s, pat, i + 1)
  }

  /** The first occurrence of `pat` in `s`, if any. */
  function IndexOf(s: string, pat: string): (r: Option<nat>)
    ensures r.None? <==> !Contains(s, pat)
    ensures r.Some? ==> OccursAt(s, pat, r.value)
    ensures r.Some? ==> forall j :: 0 <= j < r.value ==> !OccursAt(s, pat, j)
  {
    IndexFrom(s, pat, 0)
  }

  predicate IsAsciiLetterOrDigit(c: char) {
    ('a' <= c <= 'z') || ('A' <= c <= 'Z') || ('0' <= c <= '9')
  }

  function LowerChar(c: char): char {
    if 'A' <= c <= 'Z' then (c as int - 'A' as int + 'a' as int) as char else c
  }

  /** Python's `s.lower()` on ASCII text. */
  function Lower(s: string): string {
    seq(|s|, i requires 0 <= i < |s| => LowerChar(s[i]))
  }

  function DigitChar(d: nat): char
    requires d < 10
  {
    ('0' as int + d) as char
  }

  /** The decimal digits of `n`, as `"%d"` prints a non-negative integer. */
  function Digits(n: nat): (s: string)
    ensures |s| > 0
    ensures forall i :: 0 <= i < |s| ==> '0' <= s[i] <= '9'
  {
    if n < 10 then [DigitChar(n)] else Digits(n / 10) + [DigitChar(n % 10)]
  }

  /** `"%d" % n` for any integer. */
  function Decimal(n: int): (s: string)
    ensures |s| > 0
  {
    if n < 0 then "-" + Digits(-n) else Digits(n)
  }

  /** The value of a string of decimal digits (the inverse of `Digits`). */
  function DigitsValue(s: string): int {
    if s == [] then 0
    else 10 * DigitsValue(s[..|s| - 1]) + (s[|s| - 1] as int - '0' as int)
  }

  // ---------------------------------------------------------------------
  // Lemmas about splitting and joining
  // ---------------------------------------------------------------------

  /** A single space placed after `a` never joins the word that ends `a`
      with the start of what follows. */
  lemma {:induction false} TakeWordSeparated(a: string, b: string)
    ensures TakeWord(a + " " + b) == TakeWord(a)
    decreases |a|
  {
    if a == [] {
      assert (a + " " + b)[0] == ' ';
    } else if IsSpace(a[0]) {
      assert (a + " " + b)[0] == a[0];
    } else {
      assert (a + " " + b)[0] == a[0];
      assert (a + " " + b)[1..] == a[1..] + " " + b;
      TakeWordSeparated(a[1..], b);
    }
  }

  /** Splitting text joined by a space gives the tokens of both halves. */
  lemma {:induction false} SplitSeparated(a: string, b: string)
    ensures Split(a + " " + b) == Split(a) + Split(b)
    decreases |a|
  {
    var s := a + " " + b;
    if a == [] {
      assert s[0] == ' ' && s[1..] == b;
    } else if IsSpace(a[0]) {
      assert s[0] == a[0] && s[1..] == a[1..] + " " + b;
      SplitSeparated(a[1..], b);
    } else {
      assert s[0] == a[0];
      TakeWordSeparated(a, b);
      var w := TakeWord(a);
      assert |w| > 0;
      assert s[|w|..] == a[|w|..] + " " + b;
      SplitSeparated(a[|w|..], b);
    }
  }

  /** A word has no whitespace to stop at: it is its own longest prefix. */
  lemma {:induction false} TakeWordWhole(w: string)
    requires forall i :: 0 <= i < |w| ==> !IsSpace(w[i])
    ensures TakeWord(w) == w
  {
    if w != [] {
      TakeWordWhole(w[1..]);
    }
  }

  /** A single word splits into itself. */
  lemma SplitWord(w: string)
    requires IsWord(w)
    ensures Split(w) == [w]
    ensures Tokens(w) == {w}
  {
    TakeWordWhole(w);
    assert w[|w|..] == [];
  }

  /** `' '.join` followed by `split()` splits every joined part. */
  lemma {:induction false} SplitJoin(xs: seq<string>)
    ensures Split(Join(xs)) == SplitAll(xs)
  {
    if |xs| == 0 {
    } else if |xs| == 1 {
      assert xs[1..] == [];
    } else {
      SplitSeparated(xs[0], Join(xs[1..]));
      SplitJoin(xs[1..]);
    }
  }

  lemma {:induction false} SplitAllAppend(xs: seq<string>, ys: seq<string>)
    ensures SplitAll(xs + ys) == SplitAll(xs) + SplitAll(ys)
  {
    if xs == [] {
      assert xs + ys == ys;
    } else {
      assert (xs + ys)[0] == xs[0] && (xs + ys)[1..] == xs[1..] + ys;
      SplitAllAppend(xs[1..], ys);
    }
  }

  lemma {:induction false} SplitAllWords(xs: seq<string>)
    requires forall x :: x in xs ==> IsWord(x)
    ensures SplitAll(xs) == xs
  {
    if xs != [] {
      SplitWord(xs[0]);
      SplitAllWords(xs[1..]);
    }
  }

  /** Round trip: joining words with spaces and splitting gives them back. */
  lemma JoinRoundTrip(ws: seq<string>)
    requires forall w :: w in ws ==> IsWord(w)
    ensures Split(Join(ws)) == ws
  {
    SplitJoin(ws);
    SplitAllWords(ws);
  }

  /** Splitting the empty string yields nothing. */
  lemma TokensEmpty()
    ensures Split("") == [] && Tokens("") == {}
  {
  }

  // ---------------------------------------------------------------------
  // Lemmas about substrings
  // ---------------------------------------------------------------------

  /** Substring containment is transitive. */
  lemma ContainsTransitive(s: string, t: string, u: string)
    requires Contains(s, t) && Contains(t, u)
    ensures Contains(s, u)
  {
    var i :| 0 <= i <= |s| - |t| && OccursAt(s, t, i);
    var j :| 0 <= j <= |t| - |u| && OccursAt(t, u, j);
    forall k | 0 <= k < |u| ensures s[i + j + k] == u[k] {
      assert u[k] == t[j + k] == s[i + j + k];
    }
    assert s[i + j..i + j + |u|] == u;
    assert OccursAt(s, u, i + j);
  }

  /** The longest whitespace-free prefix is a substring. */
  lemma PrefixContained(s: string, w: string)
    requires w <= s
    ensures Contains(s, w)
  {
    assert OccursAt(s, w, 0);
  }

  /** Every token that `split()` yields occurs in the split text. */
  lemma {:induction false} SplitContained(s: string)
    ensures forall w :: w in Split(s) ==> Contains(s, w)
    decreases |s|
  {
    if s == [] {
    } else if IsSpace(s[0]) {
      assert OccursAt(s, s[1..], 1);
      SplitContained(s[1..]);
      forall w | w in Split(s[1..]) ensures Contains(s, w) {
        ContainsTransitive(s, s[1..], w);
      }
    } else {
      var w0 := TakeWord(s);
      PrefixContained(s, w0);
      assert OccursAt(s, s[|w0|..], |w0|);
      SplitContained(s[|w0|..]);
      forall w | w in Split(s[|w0|..]) ensures Contains(s, w) {
        ContainsTransitive(s, s[|w0|..], w);
      }
    }
  }

  /** An occurrence matches character by character. */
  lemma OccursAtChar(s: string, t: string, i: int, k: int)
    requires 0 <= k < |t|
    ensures OccursAt(s, t, i) ==> i + k < |s| && s[i + k] == t[k] && t[k] in s
  {
    if OccursAt(s, t, i) {
      assert s[i..i + |t|][k] == s[i + k];
    }
  }

  /** A string with a character that `s` lacks is not a substring of `s`. */
  lemma MissingCharNotContained(s: string, t: string, k: int)
    requires 0 <= k < |t| && t[k] !in s
    ensures !Contains(s, t)
  {
    forall i | 0 <= i <= |s| - |t| ensures !OccursAt(s, t, i) {
      OccursAtChar(s, t, i, k);
    }
  }

  /** Every string contains the empty string: `'' in s` is always true. */
  lemma ContainsEmpty(s: string)
    ensures Contains(s, "")
  {
    assert OccursAt(s, "", 0);
  }

  // ---------------------------------------------------------------------
  // Lemmas about lower-casing and decimal numerals
  // ---------------------------------------------------------------------

  /** No ASCII upper-case letter occurs in `s`. */
  predicate NoUpperCase(s: string) {
    forall i :: 0 <= i < |s| ==> !('A' <= s[i] <= 'Z')
  }

  /** Lower-casing keeps a word a word and an alphanumeric character alphanumeric. */
  lemma LowerKeepsClasses(s: string)
    ensures |Lower(s)| == |s|
    ensures forall i :: 0 <= i < |s| ==> (IsSpace(Lower(s)[i]) <==> IsSpace(s[i]))
    ensures forall i :: 0 <= i < |s| ==> (IsAsciiLetterOrDigit(Lower(s)[i]) <==> IsAsciiLetterOrDigit(s[i]))
    ensures NoUpperCase(Lower(s))
  {
  }

  /** Round trip: reading back the digits `%d` prints recovers the number. */
  lemma {:induction false} DigitsRoundTrip(n: nat)
    ensures DigitsValue(Digits(n)) == n
  {
    if n >= 10 {
      var s := Digits(n);
      assert s[..|s| - 1] == Digits(n / 10);
      DigitsRoundTrip(n / 10);
    }
  }

  /** Different numbers have different digits. */
  lemma DigitsInjective(a: nat, b: nat)
    requires Digits(a) == Digits(b)
    ensures a == b
  {
    DigitsRoundTrip(a);
    DigitsRoundTrip(b);
  }

  /** A numeral starts with a minus sign exactly when the number is negative. */
  lemma DecimalSign(n: int)
    ensures Decimal(n)[0] == '-' <==> n < 0
  {
    if n >= 0 {
      assert '0' <= Digits(n)[0] <= '9';
    }
  }

  /** Different integers print differently. */
  lemma DecimalInjective(m: int, n: int)
    requires Decimal(m) == Decimal(n)
    ensures m == n
  {
    DecimalSign(m);
    DecimalSign(n);
    if m < 0 && n < 0 {
      var dm, dn := Decimal(m), Decimal(n);
      assert Digits(-m) == dm[1..] == dn[1..] == Digits(-n);
      DigitsInjective(-m, -n);
    } else if m >= 0 && n >= 0 {
      DigitsInjective(m, n);
    }
  }
}
