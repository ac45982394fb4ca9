/**
 * The JavaScript string and number operations the front end chains together:
 * `split`, `join`, `slice(-1)`/`pop`, `toLowerCase`, `replace` with a regular
 * expression run or a plain first-occurrence pattern, `trim`, `includes`,
 * `startsWith`, unary `+` on a string, number-to-string conversion, and the
 * two ways the code turns a possibly absent string into text.
 * Character classes are the ASCII ones (see README).
 */
module JsText {
  import opened Wrappers
  import opened JsArray

  // ---------------------------------------------------------------------------
  // absent values
  // ---------------------------------------------------------------------------

  /** `${v}` in a template literal: an absent value renders as "undefined". */
  function TemplateText(v: Option<string>): string {
    match v case Some(s) => s case None => "undefined"
  }

  /** `v || ""`: an absent value gives the empty string (as does an empty one). */
  function OrEmpty(v: Option<string>): string {
    match v case Some(s) => s case None => ""
  }

  // ---------------------------------------------------------------------------
  // split and join
  // ---------------------------------------------------------------------------

  /** `s.split(sep)` for a one-character separator: the pieces between separators, at least one, none containing `sep`. */
  function Split(s: string, sep: char): (pieces: seq<string>)
    ensures |pieces| >= 1
    ensures forall i :: 0 <= i < |pieces| ==> sep !in pieces[i]
    decreases |s|
  {
    if s == [] then [[]]
    else
      var rest := Split(s[1..], sep);
      if s[0] == sep then [[]] + rest
      else [[s[0]] + rest[0]] + rest[1..]
  }

  /** `pieces.join(sep)`. */
  function Join(pieces: seq<string>, sep: string): string
    decreases |pieces|
  {
    if |pieces| == 0 then []
    else if |pieces| == 1 then pieces[0]
    else pieces[0] + sep + Join(pieces[1..], sep)
  }

  lemma JoinCons(head: string, tail: seq<string>, sep: string)
    requires |tail| >= 1
    ensures Join([head] + tail, sep) == head + sep + Join(tail, sep)
  {
    assert ([head] + tail)[1..] == tail;
  }

  /** Joining the pieces with the separator gives back the string. */
  lemma {:induction false} JoinSplit(s: string, sep: char)
    ensures Join(Split(s, sep), [sep]) == s
    decreases |s|
  {
    if s != [] {
      var rest := Split(s[1..], sep);
      JoinSplit(s[1..], sep);
      if s[0] == sep {
        JoinCons([], rest, [sep]);
      } else if |rest| == 1 {
        assert Split(s, sep) == [[s[0]] + rest[0]];
      } else {
        JoinCons([s[0]] + rest[0], rest[1..], [sep]);
        JoinCons(rest[0], rest[1..], [sep]);
        assert [rest[0]] + rest[1..] == rest;
        assert Split(s, sep) == [[s[0]] + rest[0]] + rest[1..];
      }
    }
  }

  /** A string without the separator splits into itself alone. */
  lemma {:induction false} SplitWithoutSeparator(s: string, sep: char)
    requires sep !in s
    ensures Split(s, sep) == [s]
    decreases |s|
  {
    if s != [] {
      SplitWithoutSeparator(s[1..], sep);
      assert [s[0]] + s[1..] == s;
    }
  }

  /** The pieces of `[c] + rest`, given the pieces `r` of `rest`. */
  function ConsPiece(c: char, r: seq<string>, sep: char): seq<string>
    requires |r| >= 1
  {
    if c == sep then [[]] + r else [[c] + r[0]] + r[1..]
  }

  lemma SplitCons(c: char, rest: string, sep: char)
    ensures Split([c] + rest, sep) == ConsPiece(c, Split(rest, sep), sep)
  {
    assert ([c] + rest)[0] == c && ([c] + rest)[1..] == rest;
  }

  lemma ConsPieceAppend(c: char, ra: seq<string>, rb: seq<string>, sep: char)
    requires |ra| >= 1
    ensures ConsPiece(c, ra + rb, sep) == ConsPiece(c, ra, sep) + rb
  {
    if c != sep {
      assert (ra + rb)[0] == ra[0];
      assert (ra + rb)[1..] == ra[1..] + rb;
    }
  }

  /** Splitting at one separator occurrence splits the two sides independently. */
  lemma {:induction false} SplitAround(a: string, sep: char, b: string)
    ensures Split(a + [sep] + b, sep) == Split(a, sep) + Split(b, sep)
    decreases |a|
  {
    if a == [] {
      assert a + [sep] + b == [sep] + b;
      SplitCons(sep, b, sep);
    } else {
      var t := a[1..] + [sep] + b;
      assert a + [sep] + b == [a[0]] + t;
      assert a == [a[0]] + a[1..];
      SplitAround(a[1..], sep, b);
      SplitCons(a[0], t, sep);
      SplitCons(a[0], a[1..], sep);
      ConsPieceAppend(a[0], Split(a[1..], sep), Split(b, sep), sep);
    }
  }

  /** `s.split(sep).slice(-1)[0]`, equally `s.split(sep).pop()`: the last piece. */
  function LastPiece(s: string, sep: char): (r: string)
    ensures sep !in r
  {
    var pieces := Split(s, sep);
    pieces[|pieces| - 1]
  }

  /** The last piece of `a + sep + b` is `b` when `b` has no separator. */
  lemma LastPieceAfterSeparator(a: string, sep: char, b: string)
    requires sep !in b
    ensures LastPiece(a + [sep] + b, sep) == b
  {
    SplitAround(a, sep, b);
    SplitWithoutSeparator(b, sep);
  }

  /** Index of the last occurrence of `c` in `s`, or -1. */
  function LastIndexOf(s: string, c: char): (i: int)
    ensures -1 <= i < |s|
    ensures i >= 0 ==> s[i] == c
    ensures forall j :: i < j < |s| ==> s[j] != c
    decreases |s|
  {
    if s == [] then -1
    else if s[|s| - 1] == c then |s| - 1
    else LastIndexOf(s[..|s| - 1], c)
  }

  /**
   * The last piece is the longest suffix of `s` without the separator: it is a
   * suffix, and the character that precedes it, if any, is the separator.
   */
  lemma LastPieceIsSuffix(s: string, sep: char)
    ensures var r := LastPiece(s, sep);
      |r| <= |s| && s[|s| - |r|..] == r && (|r| < |s| ==> s[|s| - |r| - 1] == sep)
  {
    var i := LastIndexOf(s, sep);
    if i < 0 {
      SplitWithoutSeparator(s, sep);
    } else {
      assert s == s[..i] + [sep] + s[i + 1..];
      LastPieceAfterSeparator(s[..i], sep, s[i + 1..]);
    }
  }

  /** `s` with every occurrence of `c` removed. */
  function DropChar(s: string, c: char): (r: string)
    ensures c !in r
    ensures |r| <= |s|
    ensures c !in s ==> r == s
    decreases |s|
  {
    if s == [] then []
    else if s[0] == c then DropChar(s[1..], c)
    else [s[0]] + DropChar(s[1..], c)
  }

  /** `s.split(c).join("")` removes every `c`. */
  lemma {:induction false} ConcatSplit(s: string, c: char)
    ensures Join(Split(s, c), "") == DropChar(s, c)
    decreases |s|
  {
    if s != [] {
      var rest := Split(s[1..], c);
      ConcatSplit(s[1..], c);
      if s[0] == c {
        assert DropChar(s, c) == DropChar(s[1..], c);
        assert Split(s, c) == [[]] + rest;
        JoinCons([], rest, "");
      } else if |rest| == 1 {
        assert DropChar(s, c) == [s[0]] + DropChar(s[1..], c);
        assert Split(s, c) == [[s[0]] + rest[0]];
      } else {
        assert DropChar(s, c) == [s[0]] + DropChar(s[1..], c);
        JoinCons([s[0]] + rest[0], rest[1..], "");
        JoinCons(rest[0], rest[1..], "");
        assert [rest[0]] + rest[1..] == rest;
        assert Split(s, c) == [[s[0]] + rest[0]] + rest[1..];
      }
    }
  }

  // ---------------------------------------------------------------------------
  // searching
  // ---------------------------------------------------------------------------

  /** `s.startsWith(prefix)`. */
  predicate StartsWith(s: string, prefix: string) {
    prefix <= s
  }

  /** `s.includes(sub)`. */
  function Includes(s: string, sub: string): (r: bool)
    ensures r <==> exists i :: 0 <= i <= |s| && sub <= s[i..]
    decreases |s|
  {
    if sub <= s then
      assert s[0..] == s;
      true
    else if s == [] then
      assert forall i :: 0 <= i <= |s| ==> s[i..] == s;
      false
    else
      var r := Includes(s[1..], sub);
      assert forall i :: 1 <= i <= |s| ==> s[i..] == s[1..][i - 1..];
      assert r ==> exists i :: 0 <= i <= |s| && sub <= s[i..] by {
        if r {
          var k :| 0 <= k <= |s[1..]| && sub <= s[1..][k..];
          assert s[k + 1..] == s[1..][k..];
        }
      }
      r
  }

  // ---------------------------------------------------------------------------
  // character classes (ASCII)
  // ---------------------------------------------------------------------------

  predicate IsUpper(c: char) { 'A' <= c <= 'Z' }

  predicate IsDigit(c: char) { '0' <= c <= '9' }

  /** Member of the regular-expression class `\w`: `[A-Za-z0-9_]`. */
  predicate IsWordChar(c: char) { 'a' <= c <= 'z' || IsUpper(c) || IsDigit(c) || c == '_' }

  /** Member of `\W`, the complement of `\w`. */
  predicate IsNonWordChar(c: char) { !IsWordChar(c) }

  /** Member of `\s`, restricted to ASCII whitespace. */
  predicate IsSpace(c: char) {
    c == ' ' || c == '\t' || c == '\n' || c == '\r' || c == '\U{B}' || c == '\U{C}'
  }

  // ---------------------------------------------------------------------------
  // case mapping, replacement and trimming
  // ---------------------------------------------------------------------------

  /** `s.toLowerCase()` on ASCII letters. */
  function ToLowerCase(s: string): (r: string)
    ensures |r| == |s|
    ensures forall i :: 0 <= i < |s| ==> !IsUpper(r[i])
    ensures forall i :: 0 <= i < |s| && !IsUpper(s[i]) ==> r[i] == s[i]
    ensures forall i :: 0 <= i < |s| && IsUpper(s[i]) ==> r[i] as int == s[i] as int + 32
  {
    seq(|s|, i requires 0 <= i < |s| => if IsUpper(s[i]) then (s[i] as int + 32) as char else s[i])
  }

  /** The suffix of `s` that starts at its first character outside `p`. */
  function DropWhile(s: string, p: char -> bool): (r: string)
    ensures |r| <= |s| && r == s[|s| - |r|..]
    ensures forall i :: 0 <= i < |s| - |r| ==> p(s[i])
    ensures r == [] || !p(r[0])
    decreases |s|
  {
    if s != [] && p(s[0]) then DropWhile(s[1..], p) else s
  }

  /**
   * `s.replace(/P+/g, rep)`: every maximal run of characters in `p` becomes one
   * `rep`; every other character is kept.
   */
  function ReplaceRuns(s: string, p: char -> bool, rep: char): (r: string)
    ensures |r| <= |s|
    ensures r == [] <==> s == []
    ensures r != [] ==> r[0] == if p(s[0]) then rep else s[0]
    ensures (forall i :: 0 <= i < |s| ==> !p(s[i])) ==> r == s
    ensures p(rep) ==> forall i :: 0 <= i < |r| - 1 ==> !(r[i] == rep && r[i + 1] == rep)
    decreases |s|
  {
    if s == [] then []
    else if p(s[0]) then
      var rest := DropWhile(s[1..], p);
      [rep] + ReplaceRuns(rest, p, rep)
    else [s[0]] + ReplaceRuns(s[1..], p, rep)
  }

  /** The characters a run replacement neither matches nor introduces. */
  function Unmatched(p: char -> bool, rep: char): char -> bool {
    (c: char) => !p(c) && c != rep
  }

  /** Dropping leading matching characters drops nothing a run replacement keeps. */
  lemma {:induction false} DropWhileKeepsOthers(t: string, p: char -> bool, rep: char)
    ensures Filter(DropWhile(t, p), Unmatched(p, rep)) == Filter(t, Unmatched(p, rep))
    decreases |t|
  {
    if t != [] && p(t[0]) {
      DropWhileKeepsOthers(t[1..], p, rep);
      assert !Unmatched(p, rep)(t[0]);
      assert Filter(t, Unmatched(p, rep)) == Filter(t[1..], Unmatched(p, rep));
    }
  }

  /**
   * Apart from the replacement character, a run replacement keeps exactly the
   * non-matching characters of the input, in their order.
   */
  lemma {:induction false} ReplaceRunsKeepsOthers(s: string, p: char -> bool, rep: char)
    ensures Filter(ReplaceRuns(s, p, rep), Unmatched(p, rep)) == Filter(s, Unmatched(p, rep))
    decreases |s|
  {
    if s != [] {
      var keep := Unmatched(p, rep);
      if p(s[0]) {
        var rest := DropWhile(s[1..], p);
        ReplaceRunsKeepsOthers(rest, p, rep);
        DropWhileKeepsOthers(s[1..], p, rep);
        assert !keep(s[0]) && !keep(rep);
        FilterAppend([rep], ReplaceRuns(rest, p, rep), keep);
        assert ReplaceRuns(s, p, rep) == [rep] + ReplaceRuns(rest, p, rep);
        assert Filter(s, keep) == Filter(s[1..], keep);
      } else {
        var tail := ReplaceRuns(s[1..], p, rep);
        ReplaceRunsKeepsOthers(s[1..], p, rep);
        assert ReplaceRuns(s, p, rep) == [s[0]] + tail;
        FilterAppend([s[0]], tail, keep);
      }
    }
  }

  /** Dropping the matching characters of a run stops at the first one that does not match. */
  lemma {:induction false} DropWhileRun(run: string, t: string, p: char -> bool)
    requires forall i :: 0 <= i < |run| ==> p(run[i])
    requires t == [] || !p(t[0])
    ensures DropWhile(run + t, p) == t
    decreases |run|
  {
    if run == [] {
      assert run + t == t;
    } else {
      assert (run + t)[1..] == run[1..] + t;
      DropWhileRun(run[1..], t, p);
    }
  }

  /**
   * A maximal run of matching characters becomes exactly one replacement
   * character, and the rest is replaced independently.
   */
  lemma ReplaceRunsRun(run: string, t: string, p: char -> bool, rep: char)
    requires run != [] && forall i :: 0 <= i < |run| ==> p(run[i])
    requires t == [] || !p(t[0])
    ensures ReplaceRuns(run + t, p, rep) == [rep] + ReplaceRuns(t, p, rep)
  {
    var s := run + t;
    var tail := run[1..] + t;
    DropWhileRun(run[1..], t, p);
    assert DropWhile(tail, p) == t;
    assert s[0] == run[0] && s[1..] == tail;
    ReplaceRunsMatch(s, p, rep);
  }

  /** A string that starts with a matching character: its run is replaced, then the rest. */
  lemma ReplaceRunsMatch(s: string, p: char -> bool, rep: char)
    requires s != [] && p(s[0])
    ensures ReplaceRuns(s, p, rep) == [rep] + ReplaceRuns(DropWhile(s[1..], p), p, rep)
  {
  }

  /** Every character of a run replacement is the replacement or a non-matching character of the input. */
  lemma {:induction false} ReplaceRunsChars(s: string, p: char -> bool, rep: char)
    ensures forall c :: c in ReplaceRuns(s, p, rep) ==> c == rep || (!p(c) && c in s)
    decreases |s|
  {
    if s != [] {
      var rest := if p(s[0]) then DropWhile(s[1..], p) else s[1..];
      ReplaceRunsChars(rest, p, rep);
      assert ReplaceRuns(s, p, rep) == [if p(s[0]) then rep else s[0]] + ReplaceRuns(rest, p, rep);
      assert rest == s[|s| - |rest|..];
    }
  }

  /** `s.indexOf(c)`: the index of the first occurrence of `c` in `s`, or -1. */
  function IndexOf(s: string, c: char): (i: int)
    ensures -1 <= i < |s|
    ensures i >= 0 ==> s[i] == c
    ensures forall j :: 0 <= j < |s| && (i < 0 || j < i) ==> s[j] != c
    decreases |s|
  {
    if s == [] then -1
    else if s[0] == c then 0
    else
      var i := IndexOf(s[1..], c);
      if i < 0 then -1 else i + 1
  }

  /** `s.replace(from, to)` with a one-character string pattern: only the first occurrence changes. */
  function ReplaceFirst(s: string, from: char, to: char): (r: string)
    ensures |r| == |s|
    ensures forall i :: 0 <= i < |r| ==> r[i] == if i == IndexOf(s, from) then to else s[i]
  {
    var k := IndexOf(s, from);
    if k < 0 then s else s[k := to]
  }

  /** The number of whitespace characters `s` starts with. */
  function LeadingSpaces(s: string): (n: nat)
    ensures n <= |s|
    ensures forall i :: 0 <= i < n ==> IsSpace(s[i])
    ensures n < |s| ==> !IsSpace(s[n])
    decreases |s|
  {
    if s != [] && IsSpace(s[0]) then 1 + LeadingSpaces(s[1..]) else 0
  }

  /** The number of whitespace characters `s` ends with. */
  function TrailingSpaces(s: string): (n: nat)
    ensures n <= |s|
    ensures forall i :: |s| - n <= i < |s| ==> IsSpace(s[i])
    ensures n < |s| ==> !IsSpace(s[|s| - n - 1])
    decreases |s|
  {
    if s != [] && IsSpace(s[|s| - 1]) then 1 + TrailingSpaces(s[..|s| - 1]) else 0
  }

  /**
   * `s.trim()`: the part of `s` that starts after its leading whitespace and
   * is followed only by whitespace; it neither starts nor ends with
   * whitespace, and it is `s` itself when there is nothing to trim.
   */
  function Trim(s: string): (r: string)
    ensures LeadingSpaces(s) + |r| <= |s| && r == s[LeadingSpaces(s)..LeadingSpaces(s) + |r|]
    ensures forall i :: LeadingSpaces(s) + |r| <= i < |s| ==> IsSpace(s[i])
    ensures r == [] || (!IsSpace(r[0]) && !IsSpace(r[|r| - 1]))
    ensures (s == [] || (!IsSpace(s[0]) && !IsSpace(s[|s| - 1]))) ==> r == s
  {
    var k := LeadingSpaces(s);
    var front := s[k..];
    var n := TrailingSpaces(front);
    var r := front[..|front| - n];
    assert r == s[k..k + |r|];
    assert forall i :: k + |r| <= i < |s| ==> IsSpace(s[i]) by {
      forall i | k + |r| <= i < |s| ensures IsSpace(s[i]) {
        assert s[i] == front[i - k];
      }
    }
    assert r != [] ==> !IsSpace(r[0]) && !IsSpace(r[|r| - 1]) by {
      if r != [] {
        assert r[0] == s[k];
        assert r[|r| - 1] == front[|front| - n - 1];
      }
    }
    assert (s == [] || (!IsSpace(s[0]) && !IsSpace(s[|s| - 1]))) ==> r == s by {
      if s != [] && !IsSpace(s[0]) && !IsSpace(s[|s| - 1]) {
        assert k == 0 && front == s;
        assert n == 0;
      }
    }
    r
  }

  // ---------------------------------------------------------------------------
  // numbers
  // ---------------------------------------------------------------------------

  /** A JavaScript number as the front end produces it: NaN or a non-negative integer. */
  datatype JsNumber = NaN | Finite(value: nat)

  predicate AllDigits(s: string) {
    forall i :: 0 <= i < |s| ==> IsDigit(s[i])
  }

  /** The value of a decimal digit string (the empty string is 0). */
  function DigitsValue(s: string): nat
    requires AllDigits(s)
    decreases |s|
  {
    if s == [] then 0 else 10 * DigitsValue(s[..|s| - 1]) + (s[|s| - 1] as int - '0' as int)
  }

  /** Unary `+s`, restricted to plain decimal digit strings: any other character gives NaN. */
  function ToNumber(s: string): (r: JsNumber)
    ensures s == [] ==> r == Finite(0)
  {
    if AllDigits(s) then Finite(DigitsValue(s)) else NaN
  }

  /** A string holding a character other than a digit is not a number. */
  lemma ToNumberNaN(s: string, i: nat)
    requires i < |s| && !IsDigit(s[i])
    ensures ToNumber(s) == NaN
  {
  }

  function DigitChar(d: nat): (c: char)
    requires d < 10
    ensures IsDigit(c) && c as int - '0' as int == d
  {
    ('0' as int + d) as char
  }

  /** `String(n)` for a non-negative integer: decimal digits without a leading zero. */
  function NumberToString(n: nat): (r: string)
    ensures r != [] && AllDigits(r)
    ensures r[0] == '0' ==> n == 0
    decreases n
  {
    if n < 10 then [DigitChar(n)] else NumberToString(n / 10) + [DigitChar(n % 10)]
  }

  /** Reading back the decimal form of a number gives the number. */
  lemma {:induction false} NumberRoundTrip(n: nat)
    ensures ToNumber(NumberToString(n)) == Finite(n)
    decreases n
  {
    var s := NumberToString(n);
    if n < 10 {
      assert s[..0] == [];
      assert DigitsValue(s) == n;
    } else {
      var front := NumberToString(n / 10);
      NumberRoundTrip(n / 10);
      assert DigitsValue(front) == n / 10;
      assert s[..|s| - 1] == front;
      assert DigitsValue(s) == 10 * (n / 10) + n % 10;
    }
  }
}
