/** The JSON text the link payloads travel in: Python's `json.dumps` for the
    string-valued dictionaries the producers build (default settings:
    `ensure_ascii=True`, separators `", "` and `": "`), and `json.loads`,
    which the consumer applies to any text it pops from the list.

    The decoder works on the remaining suffix of the text rather than on an
    index; each parser returns what it read and the text after it. */
module Json {
  import opened Wrappers
  import opened PyText

  /** What `json.loads` can return. A number keeps its spelling; an object
      keeps its members in order (see `Lookup` for the dictionary view). */
  datatype JValue =
    | JNull
    | JBool(b: bool)
    | JNumber(lexeme: string)
    | JString(s: string)
    | JArray(items: seq<JValue>)
    | JObject(members: seq<(string, JValue)>)

  // ---------------------------------------------------------------------------
  // Hexadecimal digits of `\uXXXX` escapes

  /** A lower-case hexadecimal digit, as `json.dumps` writes them. */
  function HexDigit(n: nat): (c: char)
    requires n < 16
  {
    if n < 10 then DigitChar(n) else ('a' as int + n - 10) as char
  }

  /** The characters `json.loads` accepts as hexadecimal digits. */
  predicate IsHex(c: char) {
    IsDigit(c) || 'a' <= c <= 'f' || 'A' <= c <= 'F'
  }

  function HexValue(c: char): (d: nat)
    ensures d < 16
  {
    if IsDigit(c) then DigitValue(c)
    else if 'a' <= c <= 'f' then c as int - 'a' as int + 10
    else if 'A' <= c <= 'F' then c as int - 'A' as int + 10
    else 0
  }

  /** Four hexadecimal digits start at `k`. */
  predicate HexQuad(u: string, k: nat) {
    k + 4 <= |u| && IsHex(u[k]) && IsHex(u[k + 1]) && IsHex(u[k + 2]) && IsHex(u[k + 3])
  }

  /** The value of the four hexadecimal digits at `k`. */
  function QuadValue(u: string, k: nat): (v: nat)
    requires k + 4 <= |u|
    ensures v < 0x10000
  {
    HexValue(u[k]) * 0x1000 + HexValue(u[k + 1]) * 0x100 + HexValue(u[k + 2]) * 0x10 + HexValue(u[k + 3])
  }

  /** `\\uXXXX` for a code unit below U+10000, in lower-case hexadecimal. */
  function UEscape(n: nat): (r: string)
    requires n < 0x10000
    ensures |r| == 6
  {
    ['\\', 'u', HexDigit(n / 16 / 16 / 16), HexDigit(n / 16 / 16 % 16), HexDigit(n / 16 % 16), HexDigit(n % 16)]
  }

  lemma HexDigitValue(n: nat)
    requires n < 16
    ensures IsHex(HexDigit(n)) && HexValue(HexDigit(n)) == n
  {
  }

  /** The four hexadecimal digits of `UEscape(n)`, found at `k` in `u`, read
      back as `n`. */
  lemma HexQuadOf(n: nat, u: string, k: nat)
    requires n < 0x10000 && k + 4 <= |u|
    requires u[k] == HexDigit(n / 16 / 16 / 16) && u[k + 1] == HexDigit(n / 16 / 16 % 16)
    requires u[k + 2] == HexDigit(n / 16 % 16) && u[k + 3] == HexDigit(n % 16)
    ensures HexQuad(u, k) && QuadValue(u, k) == n
  {
    var a := n / 16;
    var b := a / 16;
    var c := b / 16;
    assert n == a * 16 + n % 16;
    assert a == b * 16 + a % 16;
    assert b == c * 16 + b % 16;
    HexDigitValue(c);
    HexDigitValue(b % 16);
    HexDigitValue(a % 16);
    HexDigitValue(n % 16);
  }

  // ---------------------------------------------------------------------------
  // json.dumps

  /** The escape of one character under `ensure_ascii=True`: the seven short
      escapes, printable ASCII as itself, any other character below U+10000
      as `\\uXXXX`, and the rest as a `\\uXXXX\\uXXXX` surrogate pair. */
  function EscapeChar(c: char): (r: string)
    ensures |r| > 0 && r[0] != '"'
  {
    if c == '"' then "\\\""
    else if c == '\\' then "\\\\"
    else if c == '\n' then "\\n"
    else if c == '\r' then "\\r"
    else if c == '\t' then "\\t"
    else if c == '\U{8}' then "\\b"
    else if c == '\U{C}' then "\\f"
    else if ' ' <= c <= '~' then [c]
    else if c as int < 0x10000 then UEscape(c as int)
    else
      var v := c as int - 0x10000;
      UEscape(0xD800 + v / 0x400) + UEscape(0xDC00 + v % 0x400)
  }

  function EscapeBody(s: string): string
  {
    if s == [] then [] else EscapeChar(s[0]) + EscapeBody(s[1..])
  }

  /** A string as a JSON string literal. */
  function Quote(s: string): (r: string)
    ensures |r| >= 2 && r[0] == '"'
  {
    "\"" + EscapeBody(s) + "\""
  }

  /** One member `"key": "value"`. */
  function DumpMember(k: string, v: string): (r: string)
    ensures |r| > 0 && r[0] == '"'
  {
    Quote(k) + ": " + Quote(v)
  }

  /** The members of a dictionary of strings, `", "`-separated. */
  function DumpMembers(ps: seq<(string, string)>): string
  {
    if ps == [] then ""
    else if |ps| == 1 then DumpMember(ps[0].0, ps[0].1)
    else DumpMember(ps[0].0, ps[0].1) + ", " + DumpMembers(ps[1..])
  }

  /** `json.dumps(d)` for a dictionary whose keys and values are strings,
      given as its items in insertion order. */
  function DumpStrDict(ps: seq<(string, string)>): string
  {
    "{" + DumpMembers(ps) + "}"
  }

  /** The members `json.loads` reads back from such a dictionary. */
  function StrMembers(ps: seq<(string, string)>): (ms: seq<(string, JValue)>)
    ensures |ms| == |ps|
    ensures forall k :: 0 <= k < |ps| ==> ms[k] == (ps[k].0, JString(ps[k].1))
  {
    if ps == [] then [] else [(ps[0].0, JString(ps[0].1))] + StrMembers(ps[1..])
  }

  // ---------------------------------------------------------------------------
  // json.loads

  /** The white space JSON allows between tokens. */
  predicate IsJsonSpace(c: char) {
    c == ' ' || c == '\t' || c == '\n' || c == '\r'
  }

  function SkipWs(u: string): (r: string)
    ensures |r| <= |u|
    ensures r != [] ==> !IsJsonSpace(r[0])
  {
    if u != [] && IsJsonSpace(u[0]) then SkipWs(u[1..]) else u
  }

  /** The character a backslash escape stands for; `u` is the text after the
      backslash. A surrogate pair is joined into one character. A lone
      surrogate has no `char` to stand for and is refused. */
  function Escaped(u: string): (r: Option<(char, string)>)
    ensures r.Some? ==> |r.value.1| < |u|
  {
    if u == [] then None
    else if u[0] == '"' then Some(('"', u[1..]))
    else if u[0] == '\\' then Some(('\\', u[1..]))
    else if u[0] == '/' then Some(('/', u[1..]))
    else if u[0] == 'b' then Some(('\U{8}', u[1..]))
    else if u[0] == 'f' then Some(('\U{C}', u[1..]))
    else if u[0] == 'n' then Some(('\n', u[1..]))
    else if u[0] == 'r' then Some(('\r', u[1..]))
    else if u[0] == 't' then Some(('\t', u[1..]))
    else if u[0] == 'u' && HexQuad(u, 1) then
      var v := QuadValue(u, 1);
      if 0xD800 <= v < 0xDC00 then
        if |u| >= 11 && u[5] == '\\' && u[6] == 'u' && HexQuad(u, 7)
           && 0xDC00 <= QuadValue(u, 7) < 0xE000 then
          var w := 0x10000 + (v - 0xD800) * 0x400 + (QuadValue(u, 7) - 0xDC00);
          Some((w as char, u[11..]))
        else
          None
      else if 0xDC00 <= v < 0xE000 then
        None
      else
        Some((v as char, u[5..]))
    else
      None
  }

  /** One character of a string literal's body (not the closing quote).
      Control characters must be escaped. */
  function StrChar(u: string): (r: Option<(char, string)>)
    ensures r.Some? ==> |r.value.1| < |u|
  {
    if u == [] then None
    else if u[0] == '\\' then Escaped(u[1..])
    else if u[0] < ' ' then None
    else Some((u[0], u[1..]))
  }

  /** The body of a string literal and the text after its closing quote. */
  function StrBody(u: string): (r: Option<(string, string)>)
    ensures r.Some? ==> |r.value.1| < |u|
    decreases |u|
  {
    if u == [] then None
    else if u[0] == '"' then Some(([], u[1..]))
    else
      match StrChar(u)
      case None => None
      case Some((c, x)) =>
        match StrBody(x)
        case None => None
        case Some((t, y)) => Some(([c] + t, y))
  }

  /** The first index at or after `i` that is not an ASCII digit. */
  function DigitsEnd(u: string, i: nat): (j: nat)
    requires i <= |u|
    ensures i <= j <= |u|
    decreases |u| - i
  {
    if i < |u| && IsDigit(u[i]) then DigitsEnd(u, i + 1) else i
  }

  /** A number: `-?(0|[1-9][0-9]*)(\.[0-9]+)?([eE][-+]?[0-9]+)?`, each
      optional part taken only when it is complete. */
  function Number(u: string): (r: Option<(JValue, string)>)
    ensures r.Some? ==> |r.value.1| < |u|
  {
    var a := if u != [] && u[0] == '-' then 1 else 0;
    if a >= |u| then None
    else
      var b := if u[a] == '0' then a + 1 else if '1' <= u[a] <= '9' then DigitsEnd(u, a + 1) else a;
      if b == a then None
      else
        var c := if b + 1 < |u| && u[b] == '.' && IsDigit(u[b + 1]) then DigitsEnd(u, b + 2) else b;
        var d :=
          if c + 1 < |u| && (u[c] == 'e' || u[c] == 'E') then
            var e1 := if c + 2 < |u| && (u[c + 1] == '-' || u[c + 1] == '+') then c + 2 else c + 1;
            var e2 := DigitsEnd(u, e1);
            if e2 > e1 then e2 else c
          else c;
        Some((JNumber(u[..d]), u[d..]))
  }

  predicate Starts(u: string, w: string) {
    |w| <= |u| && u[..|w|] == w
  }

  /** A named constant (including Python's `NaN`, `Infinity` and
      `-Infinity`) or a number. */
  function Constant(u: string): (r: Option<(JValue, string)>)
    ensures r.Some? ==> |r.value.1| < |u|
  {
    if Starts(u, "null") then Some((JNull, u[4..]))
    else if Starts(u, "true") then Some((JBool(true), u[4..]))
    else if Starts(u, "false") then Some((JBool(false), u[5..]))
    else if Starts(u, "NaN") then Some((JNumber("NaN"), u[3..]))
    else if Starts(u, "Infinity") then Some((JNumber("Infinity"), u[8..]))
    else if Starts(u, "-Infinity") then Some((JNumber("-Infinity"), u[9..]))
    else Number(u)
  }

  /** One JSON value at the start of `u`: a string, an object, an array, or
      a constant. */
  function Value(u: string): (r: Option<(JValue, string)>)
    ensures r.Some? ==> |r.value.1| < |u|
    decreases |u|, 0
  {
    if u == [] then None
    else if u[0] == '"' then
      match StrBody(u[1..])
      case None => None
      case Some((t, x)) => Some((JString(t), x))
    else if u[0] == '{' then Object(SkipWs(u[1..]))
    else if u[0] == '[' then Array(SkipWs(u[1..]))
    else Constant(u)
  }

  /** An object after its opening brace and the white space after it. */
  function Object(w: string): (r: Option<(JValue, string)>)
    ensures r.Some? ==> |r.value.1| < |w|
    decreases |w|, 2
  {
    if w != [] && w[0] == '}' then Some((JObject([]), w[1..]))
    else
      match Members(w)
      case None => None
      case Some((ms, x)) => Some((JObject(ms), x))
  }

  /** An array after its opening bracket and the white space after it. */
  function Array(w: string): (r: Option<(JValue, string)>)
    ensures r.Some? ==> |r.value.1| < |w|
    decreases |w|, 2
  {
    if w != [] && w[0] == ']' then Some((JArray([]), w[1..]))
    else
      match Elements(w)
      case None => None
      case Some((vs, x)) => Some((JArray(vs), x))
  }

  /** One member `"key": value`, without what follows it. */
  function Member(u: string): (r: Option<((string, JValue), string)>)
    ensures r.Some? ==> |r.value.1| < |u|
    decreases |u|, 0
  {
    if u == [] || u[0] != '"' then None
    else
      match StrBody(u[1..])
      case None => None
      case Some((k, x)) =>
        var x1 := SkipWs(x);
        if x1 == [] || x1[0] != ':' then None
        else
          match Value(SkipWs(x1[1..]))
          case None => None
          case Some((v, y)) => Some(((k, v), y))
  }

  /** The members of a non-empty object, from its first key up to and
      including the closing brace. */
  function Members(u: string): (r: Option<(seq<(string, JValue)>, string)>)
    ensures r.Some? ==> |r.value.1| < |u|
    decreases |u|, 1
  {
    match Member(u)
    case None => None
    case Some((m, y)) =>
      var y1 := SkipWs(y);
      if y1 != [] && y1[0] == '}' then Some(([m], y1[1..]))
      else if y1 != [] && y1[0] == ',' then
        match Members(SkipWs(y1[1..]))
        case None => None
        case Some((ms, z)) => Some(([m] + ms, z))
      else None
  }

  /** The elements of a non-empty array, up to and including the closing
      bracket. */
  function Elements(u: string): (r: Option<(seq<JValue>, string)>)
    ensures r.Some? ==> |r.value.1| < |u|
    decreases |u|, 1
  {
    match Value(u)
    case None => None
    case Some((v, y)) =>
      var y1 := SkipWs(y);
      if y1 != [] && y1[0] == ']' then Some(([v], y1[1..]))
      else if y1 != [] && y1[0] == ',' then
        match Elements(SkipWs(y1[1..]))
        case None => None
        case Some((vs, z)) => Some(([v] + vs, z))
      else None
  }

  /** `json.loads(text)`: one value with optional white space around it;
      `None` where Python raises JSONDecodeError. */
  function Decode(text: string): Option<JValue>
  {
    match Value(SkipWs(text))
    case None => None
    case Some((v, x)) => if SkipWs(x) == [] then Some(v) else None
  }

  /** `d[key]` on the dictionary an object becomes: a repeated key keeps its
      last value. `None` where Python raises KeyError. */
  function Lookup(ms: seq<(string, JValue)>, key: string): (r: Option<JValue>)
    ensures r.Some? <==> exists k :: 0 <= k < |ms| && ms[k].0 == key
    ensures r.Some? ==> exists k :: 0 <= k < |ms| && ms[k] == (key, r.value)
  {
    if ms == [] then None
    else if ms[|ms| - 1].0 == key then
      Some(ms[|ms| - 1].1)
    else
      var r := Lookup(ms[..|ms| - 1], key);
      assert forall k :: 0 <= k < |ms| - 1 ==> ms[..|ms| - 1][k] == ms[k];
      r
  }

  /** A key that occurs once is looked up to the value paired with it. */
  lemma LookupUnique(ms: seq<(string, JValue)>, key: string, k: nat)
    requires k < |ms| && ms[k].0 == key
    requires forall j :: 0 <= j < |ms| && j != k ==> ms[j].0 != key
    ensures Lookup(ms, key) == Some(ms[k].1)
  {
  }

  /** A key that does not occur is missing. */
  lemma LookupAbsent(ms: seq<(string, JValue)>, key: string)
    requires forall j :: 0 <= j < |ms| ==> ms[j].0 != key
    ensures Lookup(ms, key) == None
  {
  }

  // ---------------------------------------------------------------------------
  // json.loads(json.dumps(d)) == d

  lemma Assoc(a: string, b: string, c: string)
    ensures (a + b) + c == a + (b + c)
  {
  }

  lemma DropFirst(c: char, u: string)
    ensures ([c] + u)[1..] == u
  {
  }

  lemma SkipWsOfNonSpace(u: string)
    requires u != [] && !IsJsonSpace(u[0])
    ensures SkipWs(u) == u
  {
  }

  lemma SkipWsOfSpace(u: string)
    requires u != [] && !IsJsonSpace(u[0])
    ensures SkipWs([' '] + u) == u
  {
    DropFirst(' ', u);
  }

  /** A short escape is read back. */
  lemma StrCharOfShort(c: char, x: string)
    requires c == '"' || c == '\\' || c == '\n' || c == '\r' || c == '\t' || c == '\U{8}' || c == '\U{C}'
    ensures StrChar(EscapeChar(c) + x) == Some((c, x))
  {
    var e := EscapeChar(c);
    assert |e| == 2 && e[0] == '\\';
    var u := e + x;
    assert u[1..] == [e[1]] + x;
    DropFirst(e[1], x);
  }

  lemma StrCharOfPrintable(c: char, x: string)
    requires ' ' <= c <= '~' && c != '"' && c != '\\'
    ensures StrChar(EscapeChar(c) + x) == Some((c, x))
  {
    DropFirst(c, x);
  }

  /** A character below U+10000 written as `\\uXXXX` is read back. */
  lemma StrCharOfBmp(c: char, x: string)
    requires !(' ' <= c <= '~') && c != '\n' && c != '\r' && c != '\t' && c != '\U{8}' && c != '\U{C}'
    requires c as int < 0x10000
    ensures StrChar(EscapeChar(c) + x) == Some((c, x))
  {
    var n := c as int;
    var e := UEscape(n);
    var w := (e + x)[1..];
    assert w[0] == 'u' && w[1] == e[2] && w[2] == e[3] && w[3] == e[4] && w[4] == e[5];
    HexQuadOf(n, w, 1);
    assert w[5..] == x;
  }

  /** The two halves of a surrogate pair join back into the character. */
  lemma PairHalves(c: char)
    requires c as int >= 0x10000
    ensures var v := c as int - 0x10000;
      var hi, lo := 0xD800 + v / 0x400, 0xDC00 + v % 0x400;
      0xD800 <= hi < 0xDC00 && 0xDC00 <= lo < 0xE000
      && 0x10000 + (hi - 0xD800) * 0x400 + (lo - 0xDC00) == c as int
  {
  }

  /** `Escaped` on a `\\uXXXX\\uXXXX` surrogate pair. */
  lemma EscapedPair(w: string, hi: nat, lo: nat)
    requires |w| >= 11 && w[0] == 'u' && w[5] == '\\' && w[6] == 'u'
    requires HexQuad(w, 1) && QuadValue(w, 1) == hi && 0xD800 <= hi < 0xDC00
    requires HexQuad(w, 7) && QuadValue(w, 7) == lo && 0xDC00 <= lo < 0xE000
    ensures 0x10000 + (hi - 0xD800) * 0x400 + (lo - 0xDC00) < 0x110000
    ensures Escaped(w) == Some(((0x10000 + (hi - 0xD800) * 0x400 + (lo - 0xDC00)) as char, w[11..]))
  {
  }

  /** The text after the backslash of a surrogate-pair escape. */
  lemma PairText(hi: nat, lo: nat, x: string)
    requires hi < 0x10000 && lo < 0x10000
    ensures var w := (UEscape(hi) + UEscape(lo) + x)[1..];
      |w| >= 11 && w[0] == 'u' && w[5] == '\\' && w[6] == 'u' && w[11..] == x
      && HexQuad(w, 1) && QuadValue(w, 1) == hi && HexQuad(w, 7) && QuadValue(w, 7) == lo
  {
    var h, l := UEscape(hi), UEscape(lo);
    Assoc(h, l, x);
    var w := (h + (l + x))[1..];
    assert w[0] == 'u' && w[1] == h[2] && w[2] == h[3] && w[3] == h[4] && w[4] == h[5];
    assert w[5] == l[0] && w[6] == l[1] && w[7] == l[2] && w[8] == l[3] && w[9] == l[4] && w[10] == l[5];
    HexQuadOf(hi, w, 1);
    HexQuadOf(lo, w, 7);
    assert w[11..] == x;
  }

  lemma EscapeCharOfPair(c: char)
    requires c as int >= 0x10000
    ensures var v := c as int - 0x10000;
      EscapeChar(c) == UEscape(0xD800 + v / 0x400) + UEscape(0xDC00 + v % 0x400)
  {
  }

  lemma StrCharOfBackslash(u: string, r: Option<(char, string)>)
    requires u != [] && u[0] == '\\' && Escaped(u[1..]) == r
    ensures StrChar(u) == r
  {
  }

  /** A character above U+FFFF written as a surrogate pair is read back. */
  lemma StrCharOfPair(c: char, x: string)
    requires c as int >= 0x10000
    ensures StrChar(EscapeChar(c) + x) == Some((c, x))
  {
    var v := c as int - 0x10000;
    var hi, lo := 0xD800 + v / 0x400, 0xDC00 + v % 0x400;
    PairHalves(c);
    PairText(hi, lo, x);
    var e := UEscape(hi) + UEscape(lo);
    var u := e + x;
    EscapedPair(u[1..], hi, lo);
    var n := 0x10000 + (hi - 0xD800) * 0x400 + (lo - 0xDC00);
    assert n as char == c;
    StrCharOfBackslash(u, Some((c, x)));
    EscapeCharOfPair(c);
    assert EscapeChar(c) == e;
  }

  /** Every escape `json.dumps` writes is read back as its character. */
  lemma StrCharOfEscape(c: char, x: string)
    ensures StrChar(EscapeChar(c) + x) == Some((c, x))
  {
    if c == '"' || c == '\\' || c == '\n' || c == '\r' || c == '\t' || c == '\U{8}' || c == '\U{C}' {
      StrCharOfShort(c, x);
    } else if ' ' <= c <= '~' {
      StrCharOfPrintable(c, x);
    } else if c as int < 0x10000 {
      StrCharOfBmp(c, x);
    } else {
      StrCharOfPair(c, x);
    }
  }

  /** One step of `StrBody`: a character, then the rest of the body. */
  lemma StrBodyStep(u: string, c: char, x: string, t: string, y: string)
    requires u != [] && u[0] != '"'
    requires StrChar(u) == Some((c, x)) && StrBody(x) == Some((t, y))
    ensures StrBody(u) == Some(([c] + t, y))
  {
  }

  /** The escaped body of a string, then its closing quote, reads back as the
      string. */
  lemma {:induction false} StrBodyOfEscape(s: string, x: string)
    ensures StrBody(EscapeBody(s) + ("\"" + x)) == Some((s, x))
  {
    var r := "\"" + x;
    if s == [] {
      assert EscapeBody(s) + r == r;
      DropFirst('"', x);
    } else {
      var e, b := EscapeChar(s[0]), EscapeBody(s[1..]);
      Assoc(e, b, r);
      StrCharOfEscape(s[0], b + r);
      StrBodyOfEscape(s[1..], x);
      StrBodyStep(e + (b + r), s[0], b + r, s[1..], x);
      assert [s[0]] + s[1..] == s;
    }
  }

  /** After the opening quote of `Quote(s)` comes the body, read back as `s`. */
  lemma StrBodyOfQuote(s: string, x: string)
    ensures (Quote(s) + x)[0] == '"'
    ensures StrBody((Quote(s) + x)[1..]) == Some((s, x))
  {
    var b := EscapeBody(s);
    Assoc("\"" + b, "\"", x);
    Assoc("\"", b, "\"" + x);
    DropFirst('"', b + ("\"" + x));
    StrBodyOfEscape(s, x);
  }

  lemma ValueOfString(u: string, t: string, x: string)
    requires u != [] && u[0] == '"' && StrBody(u[1..]) == Some((t, x))
    ensures Value(u) == Some((JString(t), x))
  {
  }

  lemma ValueOfQuote(s: string, x: string)
    ensures Value(Quote(s) + x) == Some((JString(s), x))
  {
    StrBodyOfQuote(s, x);
    ValueOfString(Quote(s) + x, s, x);
  }

  /** `Member` on a key, a colon right after it, and a value. */
  lemma MemberStep(u: string, k: string, x: string, v: JValue, y: string)
    requires u != [] && u[0] == '"' && StrBody(u[1..]) == Some((k, x))
    requires x != [] && x[0] == ':' && Value(SkipWs(x[1..])) == Some((v, y))
    ensures Member(u) == Some(((k, v), y))
  {
  }

  /** `Members` on a last member. */
  lemma MembersLast(u: string, m: (string, JValue), y: string)
    requires Member(u) == Some((m, y)) && y != [] && y[0] == '}'
    ensures Members(u) == Some(([m], y[1..]))
  {
  }

  /** `Members` on a member followed by a comma and more members. */
  lemma MembersNext(u: string, m: (string, JValue), y: string, ms: seq<(string, JValue)>, z: string)
    requires Member(u) == Some((m, y)) && y != [] && y[0] == ','
    requires Members(SkipWs(y[1..])) == Some((ms, z))
    ensures Members(u) == Some(([m] + ms, z))
  {
  }

  /** The text after a key: `": "`, then the value, read back. */
  lemma MemberValue(v: string, y: string)
    ensures var x := ": " + (Quote(v) + y);
      x != [] && x[0] == ':' && Value(SkipWs(x[1..])) == Some((JString(v), y))
  {
    var z := Quote(v) + y;
    assert (": " + z)[1..] == [' '] + z;
    SkipWsOfSpace(z);
    ValueOfQuote(v, y);
  }

  /** One member `"key": "value"` followed by `y`. */
  lemma MemberOfDump(k: string, v: string, y: string)
    ensures Member(DumpMember(k, v) + y) == Some(((k, JString(v)), y))
  {
    var qk, qv := Quote(k), Quote(v);
    Assoc(qk + ": ", qv, y);
    Assoc(qk, ": ", qv + y);
    var x := ": " + (qv + y);
    StrBodyOfQuote(k, x);
    MemberValue(v, y);
    MemberStep(qk + x, k, x, JString(v), y);
  }

  lemma CommaThen(tail: string)
    requires tail != [] && tail[0] == '"'
    ensures var y := ", " + tail; y != [] && y[0] == ',' && SkipWs(y[1..]) == tail
  {
    assert (", " + tail)[1..] == [' '] + tail;
    SkipWsOfSpace(tail);
  }

  /** The last member and the closing brace. */
  lemma MembersOfDumpLast(k: string, v: string, x: string)
    ensures Members(DumpMember(k, v) + ("}" + x)) == Some(([(k, JString(v))], x))
  {
    var y := "}" + x;
    MemberOfDump(k, v, y);
    DropFirst('}', x);
    MembersLast(DumpMember(k, v) + y, (k, JString(v)), y);
  }

  /** A member, a comma, and the members after it. */
  lemma MembersOfDumpNext(k: string, v: string, tail: string, ms: seq<(string, JValue)>, x: string)
    requires tail != [] && tail[0] == '"' && Members(tail) == Some((ms, x))
    ensures Members(DumpMember(k, v) + (", " + tail)) == Some(([(k, JString(v))] + ms, x))
  {
    var y := ", " + tail;
    CommaThen(tail);
    MemberOfDump(k, v, y);
    MembersNext(DumpMember(k, v) + y, (k, JString(v)), y, ms, x);
  }

  /** The text of two or more members, regrouped around its first comma. */
  lemma DumpMembersSplit(ps: seq<(string, string)>, t: string)
    requires |ps| > 1
    ensures DumpMembers(ps) + t == DumpMember(ps[0].0, ps[0].1) + (", " + (DumpMembers(ps[1..]) + t))
    ensures (DumpMembers(ps[1..]) + t)[0] == '"'
  {
    var m, d := DumpMember(ps[0].0, ps[0].1), DumpMembers(ps[1..]);
    Assoc(m + ", ", d, t);
    Assoc(m, ", ", d + t);
    if |ps| == 2 {
      assert d == DumpMember(ps[1].0, ps[1].1);
    } else {
      assert d == DumpMember(ps[1].0, ps[1].1) + ", " + DumpMembers(ps[2..]);
    }
  }

  /** `json.loads` reads the members `json.dumps` wrote. */
  lemma {:induction false} MembersOfDump(ps: seq<(string, string)>, x: string)
    requires ps != []
    ensures Members(DumpMembers(ps) + ("}" + x)) == Some((StrMembers(ps), x))
  {
    var k, v := ps[0].0, ps[0].1;
    if |ps| == 1 {
      MembersOfDumpLast(k, v, x);
      assert StrMembers(ps) == [(k, JString(v))];
    } else {
      DumpMembersSplit(ps, "}" + x);
      MembersOfDump(ps[1..], x);
      MembersOfDumpNext(k, v, DumpMembers(ps[1..]) + ("}" + x), StrMembers(ps[1..]), x);
      assert StrMembers(ps) == [(k, JString(v))] + StrMembers(ps[1..]);
    }
  }

  lemma ValueOfObject(u: string, ms: seq<(string, JValue)>, x: string)
    requires u != [] && u[0] == '{'
    requires SkipWs(u[1..]) != [] && SkipWs(u[1..])[0] != '}'
    requires Members(SkipWs(u[1..])) == Some((ms, x))
    ensures Value(u) == Some((JObject(ms), x))
  {
  }

  lemma ValueOfEmptyObject(u: string)
    requires u != [] && u[0] == '{' && SkipWs(u[1..]) == "}"
    ensures Value(u) == Some((JObject([]), ""))
  {
  }

  /** A value that fills the whole text is what `Decode` returns. */
  lemma DecodeOfValue(u: string, v: JValue)
    requires u != [] && !IsJsonSpace(u[0]) && Value(u) == Some((v, ""))
    ensures Decode(u) == Some(v)
  {
    SkipWsOfNonSpace(u);
  }

  /** Round trip: `json.loads(json.dumps(d))` gives back `d`'s items. */
  lemma DecodeOfDump(ps: seq<(string, string)>)
    ensures Decode(DumpStrDict(ps)) == Some(JObject(StrMembers(ps)))
  {
    var d := DumpMembers(ps);
    var u := DumpStrDict(ps);
    Assoc("{", d, "}");
    DropFirst('{', d + "}");
    assert u[1..] == d + "}";
    if ps == [] {
      assert d + "}" == "}";
      SkipWsOfNonSpace("}");
      ValueOfEmptyObject(u);
      assert StrMembers(ps) == [];
    } else {
      assert "}" + "" == "}";
      MembersOfDump(ps, "");
      assert (d + "}")[0] == '"';
      SkipWsOfNonSpace(d + "}");
      ValueOfObject(u, StrMembers(ps), "");
    }
    DecodeOfValue(u, JObject(StrMembers(ps)));
  }

  /** Text whose first character cannot start a JSON value, such as a bare URL
      or path, is refused. */
  lemma DecodeOfBareWord(text: string)
    requires text != [] && !IsJsonSpace(text[0]) && !IsDigit(text[0])
    requires text[0] !in "\"{[-ntfNI"
    ensures Decode(text) == None
  {
    SkipWsOfNonSpace(text);
  }
}
