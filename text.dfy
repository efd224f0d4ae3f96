/** The pieces of Python's `str` behaviour that the modelled code relies on:
    `str.isspace`, `str(n)`, `int(s)`, `strip()`, `split()`, `split(" ")[0]`,
    `" ".join(...)` and `replace(c, "")`.  The scanning functions work on
    indices, which keeps the proofs about them small. */
module PyText {
  import opened Wrappers

  /** `c.isspace()`: the characters Python's `strip()` and `split()` (with no
      argument) and `int()` treat as white space. */
  predicate IsSpace(c: char) {
    || c == ' '
    || ('\t' <= c <= '\r')
    || ('\U{1C}' <= c <= '\U{1F}')
    || c == '\U{85}' || c == '\U{A0}' || c == '\U{1680}'
    || ('\U{2000}' <= c <= '\U{200A}')
    || c == '\U{2028}' || c == '\U{2029}' || c == '\U{202F}' || c == '\U{205F}'
    || c == '\U{3000}'
  }

  predicate IsDigit(c: char) {
    '0' <= c <= '9'
  }

  predicate AllDigits(s: string) {
    forall i :: 0 <= i < |s| ==> IsDigit(s[i])
  }

  predicate AllSpace(s: string) {
    forall i :: 0 <= i < |s| ==> IsSpace(s[i])
  }

  /** `s` has no occurrence of `c`. */
  predicate Avoids(s: string, c: char) {
    forall k :: 0 <= k < |s| ==> s[k] != c
  }

  /** The value of a decimal digit (0 for any other character). */
  function DigitValue(c: char): (d: nat)
    ensures d < 10
    ensures IsDigit(c) ==> d == c as int - '0' as int
  {
    if IsDigit(c) then c as int - '0' as int else 0
  }

  function DigitChar(d: nat): (c: char)
    requires d < 10
    ensures IsDigit(c) && DigitValue(c) == d
  {
    ('0' as int + d) as char
  }

  /** The value of a string of decimal digits, most significant first. */
  function DecimalValue(s: string): nat
  {
    if |s| == 0 then 0 else DecimalValue(s[..|s| - 1]) * 10 + DigitValue(s[|s| - 1])
  }

  /** `str(n)` for a non-negative integer: its shortest decimal spelling. */
  function NatToString(n: nat): (r: string)
    ensures |r| >= 1 && AllDigits(r) && DecimalValue(r) == n
    ensures r[0] == '0' ==> n == 0 && |r| == 1
  {
    if n < 10 then
      [DigitChar(n)]
    else
      var p := NatToString(n / 10);
      var r := p + [DigitChar(n % 10)];
      assert r[..|r| - 1] == p;
      r
  }

  /** `str(i)` for any integer. */
  function IntToString(i: int): string
  {
    if i < 0 then ['-'] + NatToString(-i) else NatToString(i)
  }

  // ---------------------------------------------------------------------------
  // Scanning

  /** The first index at or after `i` that is white space (or `|s|`). */
  function WordEnd(s: string, i: nat): (j: nat)
    requires i <= |s|
    ensures i <= j <= |s|
    ensures forall k :: i <= k < j ==> !IsSpace(s[k])
    ensures j < |s| ==> IsSpace(s[j])
    decreases |s| - i
  {
    if i < |s| && !IsSpace(s[i]) then WordEnd(s, i + 1) else i
  }

  /** The first index at or after `i` holding `c` (or `|s|`). */
  function FieldEnd(s: string, c: char, i: nat): (j: nat)
    requires i <= |s|
    ensures i <= j <= |s|
    ensures forall k :: i <= k < j ==> s[k] != c
    ensures j < |s| ==> s[j] == c
    decreases |s| - i
  {
    if i < |s| && s[i] != c then FieldEnd(s, c, i + 1) else i
  }

  lemma WordEndUnique(s: string, i: nat, j: nat)
    requires i <= j <= |s|
    requires forall k :: i <= k < j ==> !IsSpace(s[k])
    requires j < |s| ==> IsSpace(s[j])
    ensures WordEnd(s, i) == j
  {
    var r := WordEnd(s, i);
    assert r < |s| ==> IsSpace(s[r]);
    assert j < |s| ==> IsSpace(s[j]);
  }

  // ---------------------------------------------------------------------------
  // strip()

  /** `s.lstrip()`. */
  function LStrip(s: string): (r: string)
    ensures |r| <= |s|
  {
    if s != [] && IsSpace(s[0]) then LStrip(s[1..]) else s
  }

  /** `s.rstrip()`. */
  function RStrip(s: string): (r: string)
    ensures |r| <= |s|
  {
    if s != [] && IsSpace(s[|s| - 1]) then RStrip(s[..|s| - 1]) else s
  }

  /** `s.strip()`: `s` without its leading and trailing white space. */
  function Strip(s: string): string
  {
    RStrip(LStrip(s))
  }

  /** `lstrip()` removes a run of white space from the front, all of it. */
  lemma {:induction false} LStripParts(s: string)
    ensures exists p :: AllSpace(p) && s == p + LStrip(s)
    ensures LStrip(s) != [] ==> !IsSpace(LStrip(s)[0])
  {
    if s != [] && IsSpace(s[0]) {
      LStripParts(s[1..]);
      var p :| AllSpace(p) && s[1..] == p + LStrip(s[1..]);
      var p' := [s[0]] + p;
      assert AllSpace(p') by {
        forall k | 0 <= k < |p'| ensures IsSpace(p'[k]) {
          if k > 0 { assert p'[k] == p[k - 1]; }
        }
      }
      assert s == p' + LStrip(s);
    } else {
      assert AllSpace([]);
      assert s == [] + LStrip(s);
    }
  }

  /** `rstrip()` removes a run of white space from the back, all of it. */
  lemma {:induction false} RStripParts(s: string)
    ensures exists q :: AllSpace(q) && s == RStrip(s) + q
    ensures RStrip(s) != [] ==> !IsSpace(RStrip(s)[|RStrip(s)| - 1])
  {
    if s != [] && IsSpace(s[|s| - 1]) {
      var t := s[..|s| - 1];
      RStripParts(t);
      var q :| AllSpace(q) && t == RStrip(t) + q;
      var q' := q + [s[|s| - 1]];
      assert AllSpace(q') by {
        forall k | 0 <= k < |q'| ensures IsSpace(q'[k]) {
          if k < |q| { assert q'[k] == q[k]; }
        }
      }
      assert s == t + [s[|s| - 1]];
      assert s == RStrip(s) + q';
    } else {
      assert AllSpace([]);
      assert s == RStrip(s) + [];
    }
  }

  /** What `strip()` promises: `s` is the result with white space added on
      either side, and the result has no white space at either end. */
  lemma StripSpec(s: string)
    ensures exists p, q :: AllSpace(p) && AllSpace(q) && s == p + Strip(s) + q
    ensures Strip(s) != [] ==> !IsSpace(Strip(s)[0]) && !IsSpace(Strip(s)[|Strip(s)| - 1])
  {
    var m := LStrip(s);
    LStripParts(s);
    RStripParts(m);
    var p :| AllSpace(p) && s == p + m;
    var q :| AllSpace(q) && m == RStrip(m) + q;
    var r := RStrip(m);
    assert s == p + r + q;
    if r != [] {
      assert r[0] == m[0];
    }
  }

  /** `strip()` introduces no character. */
  lemma StripAvoids(s: string, c: char)
    requires Avoids(s, c)
    ensures Avoids(Strip(s), c)
  {
    StripSpec(s);
    var p, q :| AllSpace(p) && AllSpace(q) && s == p + Strip(s) + q;
    var r := Strip(s);
    forall k | 0 <= k < |r| ensures r[k] != c {
      assert r[k] == s[|p| + k];
    }
  }

  /** A string with no white space at either end is left alone by `strip()`. */
  lemma StripOfTrimmed(s: string)
    requires s != [] ==> !IsSpace(s[0]) && !IsSpace(s[|s| - 1])
    ensures Strip(s) == s
  {
  }

  /** `strip()` is idempotent. */
  lemma StripIdempotent(s: string)
    ensures Strip(Strip(s)) == Strip(s)
  {
    StripSpec(s);
    StripOfTrimmed(Strip(s));
  }

  // ---------------------------------------------------------------------------
  // split(), " ".join(...) and split(" ")[0]

  /** A word of `split()`: non-empty and free of white space. */
  predicate IsWord(w: string) {
    |w| > 0 && forall i :: 0 <= i < |w| ==> !IsSpace(w[i])
  }

  /** `s.split()`: the maximal runs of non-white-space characters, in order. */
  function Words(s: string): seq<string>
    decreases |s|
  {
    if s == [] then
      []
    else if IsSpace(s[0]) then
      Words(s[1..])
    else
      var n := WordEnd(s, 0);
      assert n > 0;
      [s[..n]] + Words(s[n..])
  }

  /** `" ".join(ws)`. */
  function Join(ws: seq<string>): string
  {
    if |ws| == 0 then "" else if |ws| == 1 then ws[0] else ws[0] + " " + Join(ws[1..])
  }

  /** `s.split(c)[0]`: everything before the first `c`. */
  function FirstField(s: string, c: char): (r: string)
    ensures Avoids(r, c)
    ensures r == s || (|r| < |s| && s[..|r| + 1] == r + [c])
  {
    var j := FieldEnd(s, c, 0);
    var r := s[..j];
    assert Avoids(r, c) by {
      forall k | 0 <= k < j ensures r[k] != c { assert r[k] == s[k]; }
    }
    if j == |s| then
      assert r == s;
      r
    else
      assert s[..j + 1] == r + [c];
      r
  }

  /** `s.replace(c, "")`. */
  function RemoveChar(s: string, c: char): (r: string)
    ensures |r| <= |s|
  {
    if s == [] then [] else (if s[0] == c then [] else [s[0]]) + RemoveChar(s[1..], c)
  }

  /** `replace(c, "")` keeps exactly the characters other than `c`. */
  lemma {:induction false} RemoveCharMembers(s: string, c: char)
    ensures forall x :: x in RemoveChar(s, c) <==> x in s && x != c
  {
    if s != [] {
      RemoveCharMembers(s[1..], c);
      assert s == [s[0]] + s[1..];
    }
  }

  /** `c` occurs at `i` and again at `i + 1`. */
  predicate PairAt(r: string, i: nat, c: char)
    requires i + 1 < |r|
  {
    r[i] == c && r[i + 1] == c
  }

  /** The shape `" ".join(s.split())` produces: white space only as single
      spaces, none at either end and never two in a row. */
  predicate SingleSpaced(r: string) {
    && (forall i :: 0 <= i < |r| && IsSpace(r[i]) ==> r[i] == ' ')
    && (|r| > 0 ==> !IsSpace(r[0]) && !IsSpace(r[|r| - 1]))
    && (forall i :: 0 <= i < |r| - 1 ==> !PairAt(r, i, ' '))
  }

  /** Every element of `split()` is a word. */
  lemma {:induction false} WordsAreWords(s: string)
    ensures forall k :: 0 <= k < |Words(s)| ==> IsWord(Words(s)[k])
    decreases |s|
  {
    if s != [] {
      if IsSpace(s[0]) {
        WordsAreWords(s[1..]);
      } else {
        var n := WordEnd(s, 0);
        var w := s[..n];
        assert IsWord(w) by {
          forall k | 0 <= k < n ensures !IsSpace(w[k]) { assert w[k] == s[k]; }
        }
        WordsAreWords(s[n..]);
        var rest := Words(s[n..]);
        var ws := Words(s);
        assert ws == [w] + rest;
        forall k | 0 <= k < |ws| ensures IsWord(ws[k]) {
          if k > 0 { assert ws[k] == rest[k - 1]; }
        }
      }
    }
  }

  /** Leading white space is skipped. */
  lemma WordsSkipSpace(c: char, s: string)
    requires IsSpace(c)
    ensures Words([c] + s) == Words(s)
  {
    assert ([c] + s)[1..] == s;
  }

  /** A word followed by white space (or nothing) is the first item of `split()`. */
  lemma WordsCons(w: string, x: string)
    requires IsWord(w)
    requires x == [] || IsSpace(x[0])
    ensures Words(w + x) == [w] + Words(x)
  {
    var s := w + x;
    forall k | 0 <= k < |w| ensures !IsSpace(s[k]) { assert s[k] == w[k]; }
    if x != [] { assert s[|w|] == x[0]; }
    WordEndUnique(s, 0, |w|);
    assert s[..|w|] == w;
    assert s[|w|..] == x;
  }

  lemma JoinCons(w: string, ws: seq<string>)
    requires |ws| > 0
    ensures Join([w] + ws) == w + " " + Join(ws)
  {
    assert ([w] + ws)[1..] == ws;
  }

  lemma JoinEdges(ws: seq<string>)
    requires |ws| > 0 && forall i :: 0 <= i < |ws| ==> IsWord(ws[i])
    ensures IsWord(ws[0]) && IsWord(ws[|ws| - 1])
    ensures |Join(ws)| > 0 && Join(ws)[0] == ws[0][0]
    ensures Join(ws)[|Join(ws)| - 1] == ws[|ws| - 1][|ws[|ws| - 1]| - 1]
  {
    if |ws| > 1 {
      JoinEdges(ws[1..]);
    }
  }

  /** `split()` undoes `" ".join(...)` of words. */
  lemma {:induction false} WordsOfJoin(ws: seq<string>)
    requires forall i :: 0 <= i < |ws| ==> IsWord(ws[i])
    ensures Words(Join(ws)) == ws
  {
    if |ws| == 0 {
      assert Words("") == [];
    } else if |ws| == 1 {
      WordsCons(ws[0], []);
      assert ws[0] + [] == ws[0];
      assert Words([]) == [];
    } else {
      var w, j := ws[0], Join(ws[1..]);
      assert IsWord(w);
      assert Join(ws) == w + ([' '] + j);
      WordsCons(w, [' '] + j);
      WordsSkipSpace(' ', j);
      WordsOfJoin(ws[1..]);
      assert [w] + ws[1..] == ws;
    }
  }

  /** `" ".join(...)` of words is single-spaced. */
  lemma {:induction false} JoinSingleSpaced(ws: seq<string>)
    requires forall i :: 0 <= i < |ws| ==> IsWord(ws[i])
    ensures SingleSpaced(Join(ws))
  {
    if |ws| == 1 {
      assert IsWord(ws[0]);
    } else if |ws| > 1 {
      var w, j := ws[0], Join(ws[1..]);
      JoinSingleSpaced(ws[1..]);
      JoinEdges(ws[1..]);
      JoinEdges(ws);
      var r := w + " " + j;
      assert IsWord(w);
      forall i | 0 <= i < |r| && IsSpace(r[i]) ensures r[i] == ' ' {
        if i > |w| { assert r[i] == j[i - |w| - 1]; }
      }
      forall i | 0 <= i < |r| - 1 ensures !PairAt(r, i, ' ') {
        if i > |w| {
          assert r[i] == j[i - |w| - 1] && r[i + 1] == j[i - |w|];
          assert !PairAt(j, i - |w| - 1, ' ');
        } else if i == |w| {
          assert r[i + 1] == j[0];
        } else {
          assert r[i] == w[i];
        }
      }
    }
  }

  /** `split()` introduces no character. */
  lemma {:induction false} WordsAvoid(s: string, c: char)
    requires Avoids(s, c)
    ensures forall k :: 0 <= k < |Words(s)| ==> Avoids(Words(s)[k], c)
    decreases |s|
  {
    if s != [] {
      if IsSpace(s[0]) {
        assert Avoids(s[1..], c) by {
          forall k | 0 <= k < |s| - 1 ensures s[1..][k] != c { assert s[1..][k] == s[k + 1]; }
        }
        WordsAvoid(s[1..], c);
      } else {
        var n := WordEnd(s, 0);
        var w, t := s[..n], s[n..];
        assert Avoids(w, c) by {
          forall k | 0 <= k < n ensures w[k] != c { assert w[k] == s[k]; }
        }
        assert Avoids(t, c) by {
          forall k | 0 <= k < |t| ensures t[k] != c { assert t[k] == s[n + k]; }
        }
        WordsAvoid(t, c);
        var rest := Words(t);
        var ws := Words(s);
        assert ws == [w] + rest;
        forall k | 0 <= k < |ws| ensures Avoids(ws[k], c) {
          if k > 0 { assert ws[k] == rest[k - 1]; }
        }
      }
    }
  }

  /** `" ".join(...)` introduces no character but the space. */
  lemma {:induction false} JoinAvoids(ws: seq<string>, c: char)
    requires c != ' '
    requires forall i :: 0 <= i < |ws| ==> Avoids(ws[i], c)
    ensures Avoids(Join(ws), c)
  {
    if |ws| > 1 {
      JoinAvoids(ws[1..], c);
      var w, j := ws[0], Join(ws[1..]);
      assert Avoids(w, c);
      var r := w + " " + j;
      forall k | 0 <= k < |r| ensures r[k] != c {
        if k > |w| { assert r[k] == j[k - |w| - 1]; }
      }
    } else if |ws| == 1 {
      assert Avoids(ws[0], c);
    }
  }

  lemma RemoveCharAvoids(s: string, c: char)
    ensures Avoids(RemoveChar(s, c), c)
  {
    var r := RemoveChar(s, c);
    RemoveCharMembers(s, c);
    forall k | 0 <= k < |r| ensures r[k] != c {
      assert r[k] in r;
    }
  }

  lemma AvoidsRemoveChar(s: string, c: char, d: char)
    requires Avoids(s, c)
    ensures Avoids(RemoveChar(s, d), c)
  {
    var r := RemoveChar(s, d);
    RemoveCharMembers(s, d);
    forall k | 0 <= k < |r| ensures r[k] != c {
      assert r[k] in r;
      assert r[k] in s;
    }
  }

  lemma {:induction false} RemoveAbsent(s: string, c: char)
    requires Avoids(s, c)
    ensures RemoveChar(s, c) == s
  {
    if s != [] {
      assert Avoids(s[1..], c) by {
        forall k | 0 <= k < |s| - 1 ensures s[1..][k] != c { assert s[1..][k] == s[k + 1]; }
      }
      RemoveAbsent(s[1..], c);
      assert s == [s[0]] + s[1..];
    }
  }

  // ---------------------------------------------------------------------------
  // int(s), base 10

  /** The digits part `int()` accepts: digits, with single underscores allowed
      between two digits. */
  predicate DigitGroups(b: string) {
    && |b| > 0
    && IsDigit(b[0]) && IsDigit(b[|b| - 1])
    && (forall i :: 0 <= i < |b| ==> IsDigit(b[i]) || b[i] == '_')
    && (forall i :: 0 <= i < |b| - 1 ==> !PairAt(b, i, '_'))
  }

  lemma DigitGroupsDigits(b: string)
    requires DigitGroups(b)
    ensures AllDigits(RemoveChar(b, '_'))
  {
    var d := RemoveChar(b, '_');
    RemoveCharMembers(b, '_');
    forall i | 0 <= i < |d| ensures IsDigit(d[i]) {
      assert d[i] in d;
      var k :| 0 <= k < |b| && b[k] == d[i];
    }
  }

  /** The value of the digits part, `None` when it is malformed. */
  function GroupsValue(b: string): Option<nat>
  {
    if DigitGroups(b) then
      Some(DecimalValue(RemoveChar(b, '_')))
    else
      None
  }

  /** `int()` on an already stripped string: an optional sign, then digits. */
  function SignedValue(t: string): Option<int>
  {
    if |t| > 0 && t[0] == '-' then
      match GroupsValue(t[1..])
      case Some(v) => Some(-(v as int))
      case None => None
    else if |t| > 0 && t[0] == '+' then
      match GroupsValue(t[1..])
      case Some(v) => Some(v)
      case None => None
    else
      match GroupsValue(t)
      case Some(v) => Some(v)
      case None => None
  }

  /** `int(s)`: `None` where Python raises ValueError. Surrounding white space
      and one leading sign are allowed. */
  function ParseInt(s: string): Option<int>
  {
    SignedValue(Strip(s))
  }

  /** A non-empty string of digits is its own digits part. */
  lemma GroupsValueOfDigits(d: string)
    requires |d| > 0 && AllDigits(d)
    ensures GroupsValue(d) == Some(DecimalValue(d))
  {
    assert DigitGroups(d);
    assert Avoids(d, '_');
    RemoveAbsent(d, '_');
  }

  lemma ParseIntOfTrimmed(s: string)
    requires s != [] ==> !IsSpace(s[0]) && !IsSpace(s[|s| - 1])
    ensures ParseInt(s) == SignedValue(s)
  {
    StripOfTrimmed(s);
  }

  lemma SignedValueOfNeg(d: string)
    ensures SignedValue(['-'] + d) == match GroupsValue(d) case Some(v) => Some(-(v as int)) case None => None
  {
    assert (['-'] + d)[1..] == d;
  }

  lemma ParseIntOfNegDigits(d: string)
    requires |d| > 0 && AllDigits(d)
    ensures ParseInt(['-'] + d) == Some(-(DecimalValue(d) as int))
  {
    var s := ['-'] + d;
    NegDigitsTrimmed(d);
    ParseIntOfTrimmed(s);
    SignedValueOfNegDigits(d);
  }

  lemma SignedValueOfNegDigits(d: string)
    requires |d| > 0 && AllDigits(d)
    ensures SignedValue(['-'] + d) == Some(-(DecimalValue(d) as int))
  {
    GroupsValueOfDigits(d);
    SignedValueOfNeg(d);
  }

  /** A minus sign followed by digits has no white space at either end. */
  lemma NegDigitsTrimmed(d: string)
    requires |d| > 0 && AllDigits(d)
    ensures !IsSpace((['-'] + d)[0]) && !IsSpace((['-'] + d)[|d|])
  {
    assert (['-'] + d)[|d|] == d[|d| - 1];
  }

  /** `int(str(i)) == i`. */
  lemma ParseIntOfIntToString(i: int)
    ensures ParseInt(IntToString(i)) == Some(i)
  {
    if i < 0 {
      ParseIntOfNegDigits(NatToString(-i));
    } else {
      var d := NatToString(i);
      StripOfTrimmed(d);
      GroupsValueOfDigits(d);
    }
  }
}
