/** The matching half of `datetime.strptime`.

    `strptime` compiles its format into a regular expression that it applies
    with `re.IGNORECASE` at the start of the text: every directive becomes a
    group of alternatives tried in order, a run of white space in the format
    becomes `\s+`, and any other character stands for itself.  The first
    match found by backtracking wins, and text left over after it is an
    error.  A `Pattern` here is such a compiled format; `Match` is the
    backtracking search. */
module StrptimeRegex {
  import opened Wrappers
  import opened PyText

  /** The folding `re.IGNORECASE` applies to a text character before it
      is compared with a pattern character that is ASCII and not an upper-case
      letter: upper-case ASCII letters become lower case, and the four other
      characters Python's `re` equates with an ASCII letter fold to it
      (U+0130 and U+0131 to `i`, U+017F to `s`, the Kelvin sign U+212A to `k`).
      Other non-ASCII characters are left as they are. */
  function FoldCase(c: char): char {
    if 'A' <= c <= 'Z' then (c as int + 32) as char
    else if c == '\U{0130}' || c == '\U{0131}' then 'i'
    else if c == '\U{017F}' then 's'
    else if c == '\U{212A}' then 'k'
    else c
  }

  /** The characters that match the lower-case ASCII letter `x` ignoring case:
      `x` itself, its upper case, and the extra folds of `i`, `s` and `k`. */
  lemma FoldCaseOfLetter(c: char, x: char)
    requires 'a' <= x <= 'z'
    ensures FoldCase(c) == x <==>
      || c == x || c as int == x as int - 32
      || (x == 'i' && (c == '\U{0130}' || c == '\U{0131}'))
      || (x == 's' && c == '\U{017F}')
      || (x == 'k' && c == '\U{212A}')
  {
  }

  /** An ASCII pattern character that is not a letter matches only itself. */
  lemma FoldCaseOfOther(c: char, x: char)
    requires x as int < 128 && !('a' <= x <= 'z') && !('A' <= x <= 'Z')
    ensures FoldCase(c) == x <==> c == x
  {
  }

  /** One alternative of a directive's group: a range of characters per
      position, compared ignoring case. */
  datatype Alt =
    | One(r0: (char, char))
    | Two(r0: (char, char), r1: (char, char))
    | Three(r0: (char, char), r1: (char, char), r2: (char, char))
    | Four(r0: (char, char), r1: (char, char), r2: (char, char), r3: (char, char))

  function AltLength(a: Alt): nat {
    match a
    case One(_) => 1
    case Two(_, _) => 2
    case Three(_, _, _) => 3
    case Four(_, _, _, _) => 4
  }

  /** Character `i` of `s` lies in the range `r`, ignoring case. */
  predicate InRange(s: string, i: nat, r: (char, char)) {
    i < |s| && r.0 <= FoldCase(s[i]) <= r.1
  }

  predicate AltMatches(a: Alt, s: string, i: nat) {
    && InRange(s, i, a.r0)
    && (a.Two? || a.Three? || a.Four? ==> InRange(s, i + 1, a.r1))
    && (a.Three? || a.Four? ==> InRange(s, i + 2, a.r2))
    && (a.Four? ==> InRange(s, i + 3, a.r3))
  }

  /** The numeric directives of the two formats the spiders use. */
  datatype Directive = Year | Month | Day | Hour | Minute | Second

  /** The group `strptime` builds for each numeric directive, alternative by
      alternative in its order: `%Y` is `\d\d\d\d`, `%m` is
      `1[0-2]|0[1-9]|[1-9]`, `%d` is `3[01]|[12]\d|0[1-9]|[1-9]| [1-9]`, `%H` is
      `2[0-3]|[0-1]\d|\d`, `%M` is `[0-5]\d|\d` and `%S` is `6[0-1]|[0-5]\d|\d`.
      Each `\d` stands here for the ASCII digits `[0-9]` only; Python's `\d`
      also matches the other Unicode decimal digits. */
  function Alternatives(d: Directive): seq<Alt> {
    var digit := ('0', '9');
    match d
    case Year => [Four(digit, digit, digit, digit)]
    case Month => [Two(('1', '1'), ('0', '2')), Two(('0', '0'), ('1', '9')), One(('1', '9'))]
    case Day =>
      [Two(('3', '3'), ('0', '1')), Two(('1', '2'), digit), Two(('0', '0'), ('1', '9')), One(('1', '9')),
       Two((' ', ' '), ('1', '9'))]
    case Hour => [Two(('2', '2'), ('0', '3')), Two(('0', '1'), digit), One(digit)]
    case Minute => [Two(('0', '5'), digit), One(digit)]
    case Second => [Two(('6', '6'), ('0', '1')), Two(('0', '5'), digit), One(digit)]
  }

  /** The name `utc`. */
  function UtcName(): Alt {
    Three(('u', 'u'), ('t', 't'), ('c', 'c'))
  }

  /** The group of `%Z` is built from the host's zone names: `utc`, `gmt` and
      the local names of `time.tzname`, lower-cased and sorted by decreasing
      length (the order among names of one length is the iteration order of
      a `frozenset`). */
  predicate ZoneTable(zones: seq<Alt>) {
    && UtcName() in zones
    && forall a, b :: 0 <= a < b < |zones| ==> AltLength(zones[a]) >= AltLength(zones[b])
  }

  /** A compiled format. `Group` is a directive; `Digits(n, _)` is the
      greedy `[0-9]{1,n}` of `%f`. */
  datatype Pattern =
    | End
    | Lit(c: char, rest: Pattern)
    | Spaces(rest: Pattern)
    | Group(alts: seq<Alt>, rest: Pattern)
    | Digits(max: nat, rest: Pattern)

  /** The shape of `'%Y-%m-%d %H:%M:%S %Z'` over the groups of its directives. */
  function UtcFormat(aY: seq<Alt>, aM: seq<Alt>, aD: seq<Alt>, aH: seq<Alt>, aMi: seq<Alt>, aS: seq<Alt>, zones: seq<Alt>): Pattern {
    Group(aY, Lit('-', Group(aM, Lit('-', Group(aD, Spaces(
      Group(aH, Lit(':', Group(aMi, Lit(':', Group(aS, Spaces(Group(zones, End)))))))))))))
  }

  /** The shape of `'%Y-%m-%dT%H:%M:%S.%fZ'` over the groups of its directives. */
  function IsoFormat(aY: seq<Alt>, aM: seq<Alt>, aD: seq<Alt>, aH: seq<Alt>, aMi: seq<Alt>, aS: seq<Alt>): Pattern {
    Group(aY, Lit('-', Group(aM, Lit('-', Group(aD, Lit('T',
      Group(aH, Lit(':', Group(aMi, Lit(':', Group(aS, Lit('.', Digits(6, Lit('Z', End))))))))))))))
  }

  /** `'%Y-%m-%d %H:%M:%S %Z'` on a host whose `%Z` group is `zones`. */
  function UtcPattern(zones: seq<Alt>): Pattern {
    UtcFormat(Alternatives(Year), Alternatives(Month), Alternatives(Day), Alternatives(Hour),
      Alternatives(Minute), Alternatives(Second), zones)
  }

  /** `'%Y-%m-%dT%H:%M:%S.%fZ'`. */
  function IsoZPattern(): Pattern {
    IsoFormat(Alternatives(Year), Alternatives(Month), Alternatives(Day), Alternatives(Hour),
      Alternatives(Minute), Alternatives(Second))
  }

  /** The number of groups of `p`. */
  function GroupCount(p: Pattern): nat {
    match p
    case End => 0
    case Lit(_, rest) => GroupCount(rest)
    case Spaces(rest) => GroupCount(rest)
    case Group(_, rest) => 1 + GroupCount(rest)
    case Digits(_, rest) => 1 + GroupCount(rest)
  }

  function Rest(p: Pattern): Pattern
    requires p != End
  {
    match p
    case Lit(_, rest) => rest
    case Spaces(rest) => rest
    case Group(_, rest) => rest
    case Digits(_, rest) => rest
  }

  predicate Captures(p: Pattern) {
    p.Group? || p.Digits?
  }

  /** The lengths of the alternatives `alts[j..]` that match at `i`, in order. */
  function Holding(alts: seq<Alt>, s: string, i: nat, j: nat): seq<nat>
    requires j <= |alts|
    decreases |alts| - j
  {
    if j == |alts| then []
    else if AltMatches(alts[j], s, i) then [AltLength(alts[j])] + Holding(alts, s, i, j + 1)
    else Holding(alts, s, i, j + 1)
  }

  /** `[n, n - 1, ..., 1]`: a greedy repetition gives back one character at a time. */
  function Descending(n: nat): seq<nat> {
    if n == 0 then [] else [n] + Descending(n - 1)
  }

  /** The number of white-space characters from `i` on. */
  function SpaceRun(s: string, i: nat): (n: nat)
    requires i <= |s|
    ensures i + n <= |s|
    decreases |s| - i
  {
    if i == |s| || !IsSpace(s[i]) then 0 else 1 + SpaceRun(s, i + 1)
  }

  /** The number of ASCII digits from `i` on, at most `cap`. */
  function DigitRun(s: string, i: nat, cap: nat): (n: nat)
    requires i <= |s|
    ensures n <= cap && i + n <= |s|
    decreases cap
  {
    if cap == 0 || i == |s| || !IsDigit(s[i]) then 0 else 1 + DigitRun(s, i + 1, cap - 1)
  }

  /** The lengths the first element of `p` can match at `i`, in the order tried. */
  function Lengths(p: Pattern, s: string, i: nat): seq<nat>
    requires p != End && i <= |s|
  {
    match p
    case Lit(c, _) => if i < |s| && FoldCase(s[i]) == FoldCase(c) then [1] else []
    case Spaces(_) => Descending(SpaceRun(s, i))
    case Group(alts, _) => Holding(alts, s, i, 0)
    case Digits(n, _) => Descending(DigitRun(s, i, n))
  }

  /** The first match of `p` at index `i` of `s`: the span of each group and
      the index where the match ends; `None` as well for an index past the
      end, where the lengths tried have run out of text. */
  function Match(p: Pattern, s: string, i: nat): (r: Option<(seq<(nat, nat)>, nat)>)
    ensures r.Some? ==> |r.value.0| == GroupCount(p) && i <= r.value.1 <= |s|
    decreases p, 1
  {
    if i > |s| then None else if p == End then Some(([], i)) else Try(p, Lengths(p, s, i), s, i)
  }

  /** Backtracking over the lengths `ks` of the first element of `p`. */
  function Try(p: Pattern, ks: seq<nat>, s: string, i: nat): (r: Option<(seq<(nat, nat)>, nat)>)
    requires p != End
    ensures r.Some? ==> |r.value.0| == GroupCount(p) && i <= r.value.1 <= |s|
    decreases p, 0, |ks|
  {
    if ks == [] then
      None
    else
      var k := ks[0];
      match Match(Rest(p), s, i + k)
      case Some(m) => Some((if Captures(p) then [(i, i + k)] + m.0 else m.0, m.1))
      case None => Try(p, ks[1..], s, i)
  }

  /** The span of each group when `p` matches the whole of `s`; `None` where
      `strptime` raises ValueError for a text that does not match or has
      unconverted data left. */
  function Strptime(p: Pattern, s: string): (r: Option<seq<(nat, nat)>>)
    ensures r.Some? ==> |r.value| == GroupCount(p)
  {
    match Match(p, s, 0)
    case Some(m) => if m.1 == |s| then Some(m.0) else None
    case None => None
  }

  // ---------------------------------------------------------------------------
  // The first-choice path

  /** Taking the first length tried at every element of `p` from `i` gives
      the groups `spans` and ends at `e`. */
  predicate FirstChoice(p: Pattern, s: string, i: nat, spans: seq<(nat, nat)>, e: nat)
    requires i <= |s|
    decreases p
  {
    if p == End then spans == [] && e == i
    else
      var ks := Lengths(p, s, i);
      ks != [] && i + ks[0] <= |s| &&
      if Captures(p) then spans != [] && spans[0] == (i, i + ks[0]) && FirstChoice(Rest(p), s, i + ks[0], spans[1..], e)
      else FirstChoice(Rest(p), s, i + ks[0], spans, e)
  }

  /** Where the first choice at every element leads to the end of the
      pattern, the search never backtracks: the first match is that path. */
  lemma {:induction false} FirstChoiceMatch(p: Pattern, s: string, i: nat, spans: seq<(nat, nat)>, e: nat)
    requires i <= |s| && FirstChoice(p, s, i, spans, e)
    ensures Match(p, s, i) == Some((spans, e))
    decreases p
  {
    if p != End {
      var k := Lengths(p, s, i)[0];
      if Captures(p) {
        FirstChoiceMatch(Rest(p), s, i + k, spans[1..], e);
        assert [spans[0]] + spans[1..] == spans;
      } else {
        FirstChoiceMatch(Rest(p), s, i + k, spans, e);
      }
    }
  }

  // ---------------------------------------------------------------------------
  // The first alternative each directive takes on a zero-padded field

  /** The first alternative of `alts` to match at `i` has length `w`. */
  predicate Leads(alts: seq<Alt>, s: string, i: nat, w: nat) {
    Holding(alts, s, i, 0) != [] && Holding(alts, s, i, 0)[0] == w
  }

  /** When alternative `j` is the first to match, the first length tried is its length. */
  lemma {:induction false} FirstHit(alts: seq<Alt>, s: string, i: nat, m: nat, j: nat)
    requires m <= j < |alts|
    requires forall k :: m <= k < j ==> !AltMatches(alts[k], s, i)
    requires AltMatches(alts[j], s, i)
    ensures Holding(alts, s, i, m) != [] && Holding(alts, s, i, m)[0] == AltLength(alts[j])
    decreases j - m
  {
    if m < j {
      FirstHit(alts, s, i, m + 1, j);
    }
  }

  /** The values a two-digit directive's field takes in a `datetime`. */
  predicate InFieldRange(d: Directive, n: int) {
    match d
    case Month => 1 <= n <= 12
    case Day => 1 <= n <= 31
    case Hour => 0 <= n < 24
    case Minute => 0 <= n < 60
    case Second => 0 <= n < 60
    case Year => false
  }

  /** The value of the two digits at `i`. */
  function TwoValue(s: string, i: nat): int
    requires i + 2 <= |s|
  {
    10 * (s[i] as int - '0' as int) + (s[i + 1] as int - '0' as int)
  }

  /** Two digits at `i` spelling a value the field takes. */
  predicate DigitsAt(s: string, i: nat, d: Directive) {
    i + 2 <= |s| && '0' <= s[i] <= '9' && '0' <= s[i + 1] <= '9' && InFieldRange(d, TwoValue(s, i))
  }

  /** On two digits spelling a value in the field's range, the first
      alternative that matches takes both digits. */
  lemma TwoDigitFirst(d: Directive, s: string, i: nat)
    requires DigitsAt(s, i, d)
    ensures Leads(Alternatives(d), s, i, 2)
  {
    var alts := Alternatives(d);
    var hi := s[i];
    match d
    case Month => FirstHit(alts, s, i, 0, if hi == '0' then 1 else 0);
    case Day => FirstHit(alts, s, i, 0, if hi == '0' then 2 else if hi < '3' then 1 else 0);
    case Hour => FirstHit(alts, s, i, 0, if hi < '2' then 1 else 0);
    case Minute => FirstHit(alts, s, i, 0, 0);
    case Second => FirstHit(alts, s, i, 0, 1);
  }

  lemma YearFirst(s: string, i: nat)
    requires i + 4 <= |s| && '0' <= s[i] <= '9' && '0' <= s[i + 1] <= '9' && '0' <= s[i + 2] <= '9' && '0' <= s[i + 3] <= '9'
    ensures Holding(Alternatives(Year), s, i, 0) == [4] && Leads(Alternatives(Year), s, i, 4)
  {
    assert AltMatches(Alternatives(Year)[0], s, i);
    assert Holding(Alternatives(Year), s, i, 1) == [];
  }

  /** An alternative that matches lies inside the text. */
  lemma AltFits(a: Alt, s: string, i: nat)
    requires AltMatches(a, s, i)
    ensures i + AltLength(a) <= |s|
  {
  }

  /** At the last three characters of the text, on `UTC`, the first name of a
      host's zone table that matches is three long: longer names run past the
      end, and `utc` itself comes before every shorter name. */
  lemma {:induction false} ZoneFirst(zones: seq<Alt>, s: string, i: nat, j: nat)
    requires ZoneTable(zones) && i + 3 == |s| && s[i] == 'U' && s[i + 1] == 'T' && s[i + 2] == 'C'
    requires j <= |zones| && exists k :: j <= k < |zones| && zones[k] == UtcName()
    ensures Holding(zones, s, i, j) != [] && Holding(zones, s, i, j)[0] == 3
    decreases |zones| - j
  {
    var k :| j <= k < |zones| && zones[k] == UtcName();
    assert AltLength(zones[j]) >= 3 by {
      if j < k {
        assert AltLength(zones[j]) >= AltLength(zones[k]);
      }
    }
    if AltMatches(zones[j], s, i) {
      AltFits(zones[j], s, i);
    } else {
      assert j != k by {
        assert AltMatches(UtcName(), s, i);
      }
      ZoneFirst(zones, s, i, j + 1);
    }
  }

  // ---------------------------------------------------------------------------
  // One element of the first-choice path at a time

  lemma LitStep(c: char, rest: Pattern, s: string, i: nat, sp: seq<(nat, nat)>, e: nat)
    requires i < |s| && FoldCase(s[i]) == FoldCase(c) && FirstChoice(rest, s, i + 1, sp, e)
    ensures FirstChoice(Lit(c, rest), s, i, sp, e)
  {
  }

  lemma SpaceStep(rest: Pattern, s: string, i: nat, sp: seq<(nat, nat)>, e: nat)
    requires i < |s| && IsSpace(s[i]) && (i + 1 == |s| || !IsSpace(s[i + 1])) && FirstChoice(rest, s, i + 1, sp, e)
    ensures FirstChoice(Spaces(rest), s, i, sp, e)
  {
    assert SpaceRun(s, i) == 1;
    assert Descending(1) == [1];
  }

  lemma GroupStep(alts: seq<Alt>, rest: Pattern, s: string, i: nat, w: nat, sp: seq<(nat, nat)>, e: nat)
    requires i + w <= |s| && Leads(alts, s, i, w) && FirstChoice(rest, s, i + w, sp, e)
    ensures FirstChoice(Group(alts, rest), s, i, [(i, i + w)] + sp, e)
  {
    assert ([(i, i + w)] + sp)[1..] == sp;
  }

  /** `n` digits from `i`, then no digit or the cap: the greedy run takes all `n`. */
  lemma {:induction false} DigitRunOf(s: string, i: nat, cap: nat, n: nat)
    requires i + n <= |s| && n <= cap && AllDigits(s[i..i + n])
    requires n == cap || i + n == |s| || !IsDigit(s[i + n])
    ensures DigitRun(s, i, cap) == n
    decreases n
  {
    if n > 0 {
      assert s[i] == s[i..i + n][0];
      assert s[i + 1..i + n] == s[i..i + n][1..];
      DigitRunOf(s, i + 1, cap - 1, n - 1);
    }
  }

  lemma DigitsStep(max: nat, rest: Pattern, s: string, i: nat, n: nat, sp: seq<(nat, nat)>, e: nat)
    requires i + n <= |s| && 1 <= n <= max && AllDigits(s[i..i + n])
    requires n == max || i + n == |s| || !IsDigit(s[i + n])
    requires FirstChoice(rest, s, i + n, sp, e)
    ensures FirstChoice(Digits(max, rest), s, i, [(i, i + n)] + sp, e)
  {
    DigitRunOf(s, i, max, n);
    assert Descending(n)[0] == n;
    assert ([(i, i + n)] + sp)[1..] == sp;
  }

  /** `YYYY-MM-DD` at the start of `s`, each field taking its first alternative. */
  lemma DateHead(aY: seq<Alt>, aM: seq<Alt>, aD: seq<Alt>, rest: Pattern, s: string, sp: seq<(nat, nat)>, e: nat)
    requires |s| >= 10 && Leads(aY, s, 0, 4) && s[4] == '-' && Leads(aM, s, 5, 2) && s[7] == '-' && Leads(aD, s, 8, 2)
    requires FirstChoice(rest, s, 10, sp, e)
    ensures FirstChoice(Group(aY, Lit('-', Group(aM, Lit('-', Group(aD, rest))))), s, 0, [(0, 4), (5, 7), (8, 10)] + sp, e)
  {
    GroupStep(aD, rest, s, 8, 2, sp, e);
    LitStep('-', Group(aD, rest), s, 7, [(8, 10)] + sp, e);
    GroupStep(aM, Lit('-', Group(aD, rest)), s, 5, 2, [(8, 10)] + sp, e);
    LitStep('-', Group(aM, Lit('-', Group(aD, rest))), s, 4, [(5, 7)] + ([(8, 10)] + sp), e);
    GroupStep(aY, Lit('-', Group(aM, Lit('-', Group(aD, rest)))), s, 0, 4, [(5, 7)] + ([(8, 10)] + sp), e);
    assert [(0, 4)] + ([(5, 7)] + ([(8, 10)] + sp)) == [(0, 4), (5, 7), (8, 10)] + sp;
  }

  /** `HH:MM` at index 11. */
  lemma ClockHead(aH: seq<Alt>, aMi: seq<Alt>, rest: Pattern, s: string, sp: seq<(nat, nat)>, e: nat)
    requires |s| >= 16 && Leads(aH, s, 11, 2) && s[13] == ':' && Leads(aMi, s, 14, 2) && FirstChoice(rest, s, 16, sp, e)
    ensures FirstChoice(Group(aH, Lit(':', Group(aMi, rest))), s, 11, [(11, 13), (14, 16)] + sp, e)
  {
    GroupStep(aMi, rest, s, 14, 2, sp, e);
    LitStep(':', Group(aMi, rest), s, 13, [(14, 16)] + sp, e);
    GroupStep(aH, Lit(':', Group(aMi, rest)), s, 11, 2, [(14, 16)] + sp, e);
    assert [(11, 13)] + ([(14, 16)] + sp) == [(11, 13), (14, 16)] + sp;
  }

  /** `YYYY-MM-DD?HH:MM:SS` at the start of `s`, with `sep` at index 10. */
  predicate StampShape(s: string, sep: char) {
    && |s| >= 19
    && '0' <= s[0] <= '9' && '0' <= s[1] <= '9' && '0' <= s[2] <= '9' && '0' <= s[3] <= '9'
    && s[4] == '-' && DigitsAt(s, 5, Month) && s[7] == '-' && DigitsAt(s, 8, Day) && s[10] == sep
    && DigitsAt(s, 11, Hour) && s[13] == ':' && DigitsAt(s, 14, Minute) && s[16] == ':' && DigitsAt(s, 17, Second)
  }

  /** The groups of the six date and time fields of such a text. */
  function StampSpans(): seq<(nat, nat)> {
    [(0, 4), (5, 7), (8, 10), (11, 13), (14, 16), (17, 19)]
  }

  lemma StampLeads(s: string, sep: char)
    requires StampShape(s, sep)
    ensures Leads(Alternatives(Year), s, 0, 4) && Leads(Alternatives(Month), s, 5, 2) && Leads(Alternatives(Day), s, 8, 2)
    ensures Leads(Alternatives(Hour), s, 11, 2) && Leads(Alternatives(Minute), s, 14, 2)
    ensures Leads(Alternatives(Second), s, 17, 2)
  {
    YearFirst(s, 0);
    TwoDigitFirst(Month, s, 5);
    TwoDigitFirst(Day, s, 8);
    TwoDigitFirst(Hour, s, 11);
    TwoDigitFirst(Minute, s, 14);
    TwoDigitFirst(Second, s, 17);
  }

  // ---------------------------------------------------------------------------
  // '%Y-%m-%d %H:%M:%S %Z'

  /** `YYYY-MM-DD HH:MM:SS UTC`. */
  predicate UtcShape(s: string) {
    StampShape(s, ' ') && |s| == 23 && s[19] == ' ' && s[20] == 'U' && s[21] == 'T' && s[22] == 'C'
  }

  lemma UtcTail(s: string, aS: seq<Alt>, zones: seq<Alt>)
    requires |s| == 23 && s[16] == ':' && Leads(aS, s, 17, 2) && s[19] == ' ' && !IsSpace(s[20]) && Leads(zones, s, 20, 3)
    ensures FirstChoice(Lit(':', Group(aS, Spaces(Group(zones, End)))), s, 16, [(17, 19), (20, 23)], 23)
  {
    GroupStep(zones, End, s, 20, 3, [], 23);
    assert [(20, 23)] + [] == [(20, 23)];
    SpaceStep(Group(zones, End), s, 19, [(20, 23)], 23);
    GroupStep(aS, Spaces(Group(zones, End)), s, 17, 2, [(20, 23)], 23);
    assert [(17, 19)] + [(20, 23)] == [(17, 19), (20, 23)];
    LitStep(':', Group(aS, Spaces(Group(zones, End))), s, 16, [(17, 19), (20, 23)], 23);
  }

  /** The chain of `'%Y-%m-%d %H:%M:%S %Z'` over any tables whose first
      matching alternatives have the fields' widths. */
  lemma UtcChain(s: string, aY: seq<Alt>, aM: seq<Alt>, aD: seq<Alt>, aH: seq<Alt>, aMi: seq<Alt>, aS: seq<Alt>, zones: seq<Alt>)
    requires |s| == 23
    requires Leads(aY, s, 0, 4) && Leads(aM, s, 5, 2) && Leads(aD, s, 8, 2) && Leads(aH, s, 11, 2)
    requires Leads(aMi, s, 14, 2) && Leads(aS, s, 17, 2) && Leads(zones, s, 20, 3)
    requires s[4] == '-' && s[7] == '-' && s[10] == ' ' && s[13] == ':' && s[16] == ':' && s[19] == ' '
    requires !IsSpace(s[11]) && !IsSpace(s[20])
    ensures Strptime(UtcFormat(aY, aM, aD, aH, aMi, aS, zones), s) == Some(StampSpans() + [(20, 23)])
  {
    var tail := Lit(':', Group(aS, Spaces(Group(zones, End))));
    UtcTail(s, aS, zones);
    ClockHead(aH, aMi, tail, s, [(17, 19), (20, 23)], 23);
    var clock := Group(aH, Lit(':', Group(aMi, tail)));
    var sc := [(11, 13), (14, 16)] + [(17, 19), (20, 23)];
    SpaceStep(clock, s, 10, sc, 23);
    DateHead(aY, aM, aD, Spaces(clock), s, sc, 23);
    assert [(0, 4), (5, 7), (8, 10)] + sc == StampSpans() + [(20, 23)];
    FirstChoiceMatch(UtcFormat(aY, aM, aD, aH, aMi, aS, zones), s, 0, StampSpans() + [(20, 23)], 23);
  }

  lemma UtcLeads(zones: seq<Alt>, s: string)
    requires ZoneTable(zones) && UtcShape(s)
    ensures Leads(Alternatives(Year), s, 0, 4) && Leads(Alternatives(Month), s, 5, 2) && Leads(Alternatives(Day), s, 8, 2)
    ensures Leads(Alternatives(Hour), s, 11, 2) && Leads(Alternatives(Minute), s, 14, 2)
    ensures Leads(Alternatives(Second), s, 17, 2) && Leads(zones, s, 20, 3)
  {
    StampLeads(s, ' ');
    ZoneFirst(zones, s, 20, 0);
  }

  /** `strptime` with `'%Y-%m-%d %H:%M:%S %Z'` reads a text of this shape in
      one pass on any host: every field takes its first alternative. */
  lemma UtcMatch(zones: seq<Alt>, s: string)
    requires ZoneTable(zones) && UtcShape(s)
    ensures Strptime(UtcPattern(zones), s) == Some(StampSpans() + [(20, 23)])
  {
    UtcLeads(zones, s);
    UtcChain(s, Alternatives(Year), Alternatives(Month), Alternatives(Day), Alternatives(Hour),
      Alternatives(Minute), Alternatives(Second), zones);
  }

  // ---------------------------------------------------------------------------
  // '%Y-%m-%dT%H:%M:%S.%fZ'

  /** `YYYY-MM-DDTHH:MM:SS.` followed by `fw` digits and `Z`. */
  predicate IsoShape(s: string, fw: nat) {
    StampShape(s, 'T') && 1 <= fw <= 6 && |s| == 21 + fw && s[19] == '.' && AllDigits(s[20..20 + fw]) && s[20 + fw] == 'Z'
  }

  lemma IsoTail(s: string, aS: seq<Alt>, fw: nat)
    requires 1 <= fw <= 6 && |s| == 21 + fw && s[16] == ':' && Leads(aS, s, 17, 2) && s[19] == '.'
    requires AllDigits(s[20..20 + fw]) && s[20 + fw] == 'Z'
    ensures FirstChoice(Lit(':', Group(aS, Lit('.', Digits(6, Lit('Z', End))))), s, 16, [(17, 19), (20, 20 + fw)], 21 + fw)
  {
    LitStep('Z', End, s, 20 + fw, [], 21 + fw);
    DigitsStep(6, Lit('Z', End), s, 20, fw, [], 21 + fw);
    assert [(20, 20 + fw)] + [] == [(20, 20 + fw)];
    LitStep('.', Digits(6, Lit('Z', End)), s, 19, [(20, 20 + fw)], 21 + fw);
    GroupStep(aS, Lit('.', Digits(6, Lit('Z', End))), s, 17, 2, [(20, 20 + fw)], 21 + fw);
    assert [(17, 19)] + [(20, 20 + fw)] == [(17, 19), (20, 20 + fw)];
    LitStep(':', Group(aS, Lit('.', Digits(6, Lit('Z', End)))), s, 16, [(17, 19), (20, 20 + fw)], 21 + fw);
  }

  lemma IsoChain(s: string, fw: nat, aY: seq<Alt>, aM: seq<Alt>, aD: seq<Alt>, aH: seq<Alt>, aMi: seq<Alt>, aS: seq<Alt>)
    requires 1 <= fw <= 6 && |s| == 21 + fw
    requires Leads(aY, s, 0, 4) && Leads(aM, s, 5, 2) && Leads(aD, s, 8, 2) && Leads(aH, s, 11, 2)
    requires Leads(aMi, s, 14, 2) && Leads(aS, s, 17, 2)
    requires s[4] == '-' && s[7] == '-' && s[10] == 'T' && s[13] == ':' && s[16] == ':' && s[19] == '.'
    requires AllDigits(s[20..20 + fw]) && s[20 + fw] == 'Z'
    ensures Strptime(IsoFormat(aY, aM, aD, aH, aMi, aS), s) == Some(StampSpans() + [(20, 20 + fw)])
  {
    var tail := Lit(':', Group(aS, Lit('.', Digits(6, Lit('Z', End)))));
    IsoTail(s, aS, fw);
    ClockHead(aH, aMi, tail, s, [(17, 19), (20, 20 + fw)], 21 + fw);
    var clock := Group(aH, Lit(':', Group(aMi, tail)));
    var sc := [(11, 13), (14, 16)] + [(17, 19), (20, 20 + fw)];
    LitStep('T', clock, s, 10, sc, 21 + fw);
    DateHead(aY, aM, aD, Lit('T', clock), s, sc, 21 + fw);
    assert [(0, 4), (5, 7), (8, 10)] + sc == StampSpans() + [(20, 20 + fw)];
    FirstChoiceMatch(IsoFormat(aY, aM, aD, aH, aMi, aS), s, 0, StampSpans() + [(20, 20 + fw)], 21 + fw);
  }

  /** `strptime` with `'%Y-%m-%dT%H:%M:%S.%fZ'` reads a text of this shape in
      one pass, `%f` taking all `fw` digits. */
  lemma IsoMatch(s: string, fw: nat)
    requires IsoShape(s, fw)
    ensures Strptime(IsoZPattern(), s) == Some(StampSpans() + [(20, 20 + fw)])
  {
    StampLeads(s, 'T');
    IsoChain(s, fw, Alternatives(Year), Alternatives(Month), Alternatives(Day), Alternatives(Hour),
      Alternatives(Minute), Alternatives(Second));
  }
}
