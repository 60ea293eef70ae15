/** The JSON printer and parser of json.cc, as functions on text. */
module Json {
  type Int32 = x: int | -0x8000_0000 <= x < 0x8000_0000

  /** A node; an object's members stand in key order, as in the ordered map that holds them. */
  datatype Json =
    | Object(members: seq<Member>)
    | Array(elements: seq<Json>)
    | String(text: string)
    | Number(value: Int32)
    | Bool(flag: bool)
    | Nil

  datatype Member = Member(key: string, value: Json)

  /** Byte-wise comparison of keys. */
  predicate Less(a: string, b: string) {
    b != "" && (a == "" || a[0] < b[0] || (a[0] == b[0] && Less(a[1..], b[1..])))
  }

  /** Sets a key: replaced where it stands, or put in its place. */
  function SetMember(members: seq<Member>, key: string, value: Json): seq<Member> {
    if members == [] || Less(key, members[0].key) then [Member(key, value)] + members
    else if members[0].key == key then [Member(key, value)] + members[1..]
    else [members[0]] + SetMember(members[1..], key, value)
  }

  // ---- printing -----------------------------------------------------------------------------

  function Spaces(n: nat): string { seq(n, _ => ' ') }

  function NewLine(level: nat): string { "\n" + Spaces(level) }

  function Digit(d: nat): char
    requires d < 10
  {
    '0' + d as char
  }

  function Digits(n: nat): (s: string)
    ensures s != ""
  {
    if n < 10 then [Digit(n)] else Digits(n / 10) + [Digit(n % 10)]
  }

  function Quoted(s: string): string { "\"" + s + "\"" }

  function Text(v: Json, indent: bool, width: nat, level: nat): string
    decreases v
  {
    match v
    case Object(ms) => "{" + (MembersText(ms, true, indent, width, level) + (Close(indent && ms != [], level) + "}"))
    case Array(es) => "[" + (ElementsText(es, true, indent, width, level) + (Close(indent && es != [], level) + "]"))
    case String(s) => Quoted(s)
    case Number(n) => if n < 0 then "-" + Digits(-(n as int)) else Digits(n)
    case Bool(b) => if b then "true" else "false"
    case Nil => "null"
  }

  function Close(broken: bool, level: nat): string { if broken then NewLine(level) else "" }

  function CommaUnless(first: bool): string { if first then "" else "," }

  function MemberGap(indent: bool, at: nat): string { if indent then NewLine(at) else " " }

  function ElementGap(first: bool, indent: bool, at: nat): string {
    if indent then NewLine(at) else if first then "" else " "
  }

  function MembersText(ms: seq<Member>, first: bool, indent: bool, width: nat, level: nat): string
    decreases ms
  {
    if ms == [] then "" else CommaUnless(first) + (MemberGap(indent, level + width) + FromMember(ms, indent, width, level))
  }

  /** What is printed for the members after their leading separator and blanks. */
  function FromMember(ms: seq<Member>, indent: bool, width: nat, level: nat): string
    requires ms != []
    decreases ms, 0
  {
    Quoted(ms[0].key) + (": " + (Text(ms[0].value, indent, width, level + width) + MembersText(ms[1..], false, indent, width, level)))
  }

  function ElementsText(es: seq<Json>, first: bool, indent: bool, width: nat, level: nat): string
    decreases es
  {
    if es == [] then "" else CommaUnless(first) + (ElementGap(first, indent, level + width) + FromElement(es, indent, width, level))
  }

  function FromElement(es: seq<Json>, indent: bool, width: nat, level: nat): string
    requires es != []
    decreases es, 0
  {
    Text(es[0], indent, width, level + width) + ElementsText(es[1..], false, indent, width, level)
  }

  /** No string and no key holds a line end. */
  predicate LineFree(v: Json)
    decreases v
  {
    match v
    case Object(ms) => forall i :: 0 <= i < |ms| ==> '\n' !in ms[i].key && LineFree(ms[i].value)
    case Array(es) => forall i :: 0 <= i < |es| ==> LineFree(es[i])
    case String(s) => '\n' !in s
    case _ => true
  }

  /** Without indentation such a tree is printed on one line. */
  lemma {:induction false} OneLine(v: Json, width: nat, level: nat)
    requires LineFree(v)
    ensures '\n' !in Text(v, false, width, level)
    decreases v, 0
  {
    match v
    case Object(ms) => MembersOneLine(ms, true, width, level);
    case Array(es) => ElementsOneLine(es, true, width, level);
    case Number(n) => DigitsOneLine(if n < 0 then -(n as int) else n);
    case _ =>
  }

  lemma {:induction false} DigitsOneLine(n: nat)
    ensures '\n' !in Digits(n)
  {
    if n >= 10 { DigitsOneLine(n / 10); }
  }

  lemma {:induction false} MembersOneLine(ms: seq<Member>, first: bool, width: nat, level: nat)
    requires forall i :: 0 <= i < |ms| ==> '\n' !in ms[i].key && LineFree(ms[i].value)
    ensures '\n' !in MembersText(ms, first, false, width, level)
    decreases ms, 1
  {
    if ms != [] {
      OneLine(ms[0].value, width, level + width);
      MembersOneLine(ms[1..], false, width, level);
    }
  }

  lemma {:induction false} ElementsOneLine(es: seq<Json>, first: bool, width: nat, level: nat)
    requires forall i :: 0 <= i < |es| ==> LineFree(es[i])
    ensures '\n' !in ElementsText(es, first, false, width, level)
    decreases es, 1
  {
    if es != [] {
      OneLine(es[0], width, level + width);
      ElementsOneLine(es[1..], false, width, level);
    }
  }

  /** With indentation the first member or element of any starts a line, indented to its level. */
  lemma OwnLine(ms: seq<Member>, es: seq<Json>, width: nat, level: nat)
    ensures ms != [] ==> ("{" + ("\n" + seq(level + width, _ => ' '))) <= Text(Object(ms), true, width, level)
    ensures es != [] ==> ("[" + ("\n" + seq(level + width, _ => ' '))) <= Text(Array(es), true, width, level)
  {
    hide FromMember, FromElement;
    if ms != [] { assert MembersText(ms, true, true, width, level) == NewLine(level + width) + FromMember(ms, true, width, level); }
    if es != [] { assert ElementsText(es, true, true, width, level) == NewLine(level + width) + FromElement(es, true, width, level); }
  }

  // ---- tokens -------------------------------------------------------------------------------

  datatype Token =
    | NoToken | ObjectBegin | ObjectEnd | ArrayBegin | ArrayEnd | Comma | Colon
    | StringToken(text: string) | NumberToken(digits: string) | TrueToken | FalseToken | NullToken

  predicate IsSpace(c: char) { c == ' ' || '\t' <= c <= '\r' }
  predicate IsDigit(c: char) { '0' <= c <= '9' }

  function SkipSpaces(s: string): (r: string)
    ensures |r| <= |s|
  {
    if s != "" && IsSpace(s[0]) then SkipSpaces(s[1..]) else s
  }

  /** After the opening quote: up to the closing one, with no escapes. */
  function ReadString(s: string): (r: (Token, string))
    ensures |r.1| <= |s|
    ensures r.0.StringToken? ==> '"' !in r.0.text
  {
    if s == "" then (NoToken, s)
    else if s[0] == '"' then (StringToken(""), s[1..])
    else
      var (t, rest) := ReadString(s[1..]);
      (if t.StringToken? then StringToken([s[0]] + t.text) else NoToken, rest)
  }

  function ReadKeyword(s: string, keyword: string, token: Token): (r: (Token, string))
    ensures |r.1| <= |s|
    ensures r.0 == NoToken || (r.0 == token && |r.1| == |s| - |keyword|)
  {
    if keyword == "" then (token, s)
    else if s == "" || s[0] != keyword[0] then (NoToken, s)
    else ReadKeyword(s[1..], keyword[1..], token)
  }

  function ReadNumber(s: string): (r: (string, string))
    ensures s == r.0 + r.1
    ensures s != "" && IsDigit(s[0]) ==> r.0 != ""
  {
    if s != "" && IsDigit(s[0]) then
      var (digits, rest) := ReadNumber(s[1..]);
      ([s[0]] + digits, rest)
    else ("", s)
  }

  function Scan(input: string): (r: (Token, string))
    ensures |r.1| <= |input|
    ensures r.0 != NoToken ==> |r.1| < |input|
    ensures r.0.StringToken? ==> '"' !in r.0.text
  {
    var s := SkipSpaces(input);
    if s == "" then (NoToken, s)
    else
      match s[0]
      case '{' => (ObjectBegin, s[1..])
      case '}' => (ObjectEnd, s[1..])
      case '[' => (ArrayBegin, s[1..])
      case ']' => (ArrayEnd, s[1..])
      case ',' => (Comma, s[1..])
      case ':' => (Colon, s[1..])
      case '"' => ReadString(s[1..])
      case 'f' => ReadKeyword(s, "false", FalseToken)
      case 't' => ReadKeyword(s, "true", TrueToken)
      case 'n' => ReadKeyword(s, "null", NullToken)
      case _ =>
        if IsDigit(s[0]) then
          var (digits, rest) := ReadNumber(s);
          (NumberToken(digits), rest)
        else (NoToken, s)
  }

  // ---- parsing ------------------------------------------------------------------------------

  /** The parser between calls: what is left to read, and a token it may have read ahead. */
  datatype Input = Input(rest: string, ahead: Ahead)
  datatype Ahead = Nothing | Peeked(token: Token)

  function Next(i: Input): (Token, Input) {
    match i.ahead
    case Peeked(t) => (t, Input(i.rest, Nothing))
    case Nothing => var (t, rest) := Scan(i.rest); (t, Input(rest, Nothing))
  }

  /** Characters left count double; a token read ahead counts once, if it is one. */
  function Left(i: Input): nat { 2 * |i.rest| + if i.ahead.Peeked? && i.ahead.token != NoToken then 1 else 0 }

  datatype Result = SyntaxError | Parsed(v: Json, input: Input)

  /** strtol to a 64-bit long, then cut down to an int. */
  function ToInt(digits: string): Int32 {
    var long := if Value(digits) > 0x7FFF_FFFF_FFFF_FFFF then 0x7FFF_FFFF_FFFF_FFFF else Value(digits);
    var low := long % 0x1_0000_0000;
    if low < 0x8000_0000 then low else low - 0x1_0000_0000
  }

  /**
   * A number reads as what it denotes exactly if that is below 2^31; otherwise as its low 32 bits with a sign, and from
   * 2^63 on as -1.
   */
  lemma NumberExactIff(digits: string)
    ensures ToInt(digits) == Value(digits) <==> Value(digits) < 0x8000_0000
    ensures Value(digits) < 0x8000_0000_0000_0000 ==> (Value(digits) - ToInt(digits)) % 0x1_0000_0000 == 0
    ensures Value(digits) >= 0x8000_0000_0000_0000 ==> ToInt(digits) == -1
  {
    hide Value;
  }

  function Value(digits: string): nat {
    if digits == "" || !IsDigit(digits[|digits| - 1]) then 0
    else 10 * Value(digits[..|digits| - 1]) + (digits[|digits| - 1] - '0') as nat
  }

  function ParseNode(i: Input): (r: Result)
    ensures r.Parsed? ==> Left(r.input) < Left(i)
    decreases Left(i), 0
  {
    var (t, i1) := Next(i);
    match t
    case ObjectBegin => ParseObject(i1)
    case ArrayBegin => ParseArray(i1)
    case StringToken(s) => Parsed(String(s), i1)
    case NumberToken(d) => Parsed(Number(ToInt(d)), i1)
    case TrueToken => Parsed(Bool(true), i1)
    case FalseToken => Parsed(Bool(false), i1)
    case NullToken => Parsed(Nil, i1)
    case _ => SyntaxError
  }

  function ParseObject(i: Input): (r: Result)
    ensures r.Parsed? ==> Left(r.input) <= Left(i)
    decreases Left(i), 2
  {
    var (t, i1) := Next(i);
    ParseMembers(t, i1, [])
  }

  /** The loop of ParseObject, with the token it tests in hand. A comma may be followed by the closing brace. */
  function ParseMembers(t: Token, i: Input, members: seq<Member>): (r: Result)
    ensures r.Parsed? ==> Left(r.input) <= Left(i)
    decreases Left(i), 1
  {
    if t == ObjectEnd then Parsed(Object(members), i)
    else if !t.StringToken? then SyntaxError
    else
      var (colon, i1) := Next(i);
      if colon != Colon then SyntaxError
      else
        match ParseNode(i1)
        case SyntaxError => SyntaxError
        case Parsed(v, i2) =>
          var (sep, i3) := Next(i2);
          var members1 := SetMember(members, t.text, v);
          if sep == ObjectEnd then Parsed(Object(members1), i3)
          else if sep == Comma then
            var (t1, i4) := Next(i3);
            ParseMembers(t1, i4, members1)
          else SyntaxError
  }

  function ParseArray(i: Input): (r: Result)
    ensures r.Parsed? ==> Left(r.input) <= Left(i)
    decreases Left(i), 2
  {
    var (t, i1) := Next(i);
    if t == ArrayEnd then Parsed(Array([]), i1)
    else ParseElements(i1.(ahead := Peeked(t)), [])
  }

  function ParseElements(i: Input, elements: seq<Json>): (r: Result)
    ensures r.Parsed? ==> Left(r.input) <= Left(i)
    decreases Left(i), 1
  {
    match ParseNode(i)
    case SyntaxError => SyntaxError
    case Parsed(v, i1) =>
      var (sep, i2) := Next(i1);
      if sep == ArrayEnd then Parsed(Array(elements + [v]), i2)
      else if sep == Comma then ParseElements(i2, elements + [v])
      else SyntaxError
  }

  /** What follows the first node is not looked at. */
  function Parse(text: string): Result { ParseNode(Input(text, Nothing)) }

  // ---- what the parser can return -----------------------------------------------------------

  /** No string and no key holds a quote, which the printer would not escape. */
  predicate QuoteFree(v: Json)
    decreases v
  {
    match v
    case Object(ms) => forall i :: 0 <= i < |ms| ==> '"' !in ms[i].key && QuoteFree(ms[i].value)
    case Array(es) => forall i :: 0 <= i < |es| ==> QuoteFree(es[i])
    case String(s) => '"' !in s
    case _ => true
  }

  predicate NonNegative(v: Json)
    decreases v
  {
    match v
    case Object(ms) => forall i :: 0 <= i < |ms| ==> NonNegative(ms[i].value)
    case Array(es) => forall i :: 0 <= i < |es| ==> NonNegative(es[i])
    case Number(n) => n >= 0
    case _ => true
  }

  predicate KeysInOrder(ms: seq<Member>) { forall i, j :: 0 <= i < j < |ms| ==> Less(ms[i].key, ms[j].key) }

  /** Every object's members stand in key order, as the ordered map keeps them. */
  predicate Ordered(v: Json)
    decreases v
  {
    match v
    case Object(ms) => KeysInOrder(ms) && forall i :: 0 <= i < |ms| ==> Ordered(ms[i].value)
    case Array(es) => forall i :: 0 <= i < |es| ==> Ordered(es[i])
    case _ => true
  }

  lemma {:induction false} LessTransitive(a: string, b: string, c: string)
    requires Less(a, b) && Less(b, c)
    ensures Less(a, c)
  {
    if a != "" && a[0] == b[0] == c[0] { LessTransitive(a[1..], b[1..], c[1..]); }
  }

  lemma {:induction false} LessTotal(a: string, b: string)
    ensures Less(a, b) || Less(b, a) || a == b
  {
    if a != "" && b != "" && a[0] == b[0] {
      LessTotal(a[1..], b[1..]);
      assert a == [a[0]] + a[1..] && b == [b[0]] + b[1..];
    }
  }

  lemma {:induction false} LessIrreflexive(a: string)
    ensures !Less(a, a)
  {
    if a != "" { LessIrreflexive(a[1..]); }
  }

  /** Setting a member puts it in place of any with its key, and keeps all others. */
  lemma {:induction false} SetMemberSets(ms: seq<Member>, key: string, value: Json, m: Member)
    requires KeysInOrder(ms)
    ensures m in SetMember(ms, key, value) <==> m == Member(key, value) || (m in ms && m.key != key)
  {
    LessIrreflexive(key);
    if ms != [] {
      assert ms == [ms[0]] + ms[1..] && KeysInOrder(ms[1..]);
      LaterKeys(ms, key, m);
      if !Less(key, ms[0].key) && ms[0].key != key { SetMemberSets(ms[1..], key, value, m); }
    }
  }

  lemma LaterKeys(ms: seq<Member>, key: string, m: Member)
    requires KeysInOrder(ms) && ms != []
    ensures m in ms[1..] ==> Less(ms[0].key, m.key)
    ensures Less(key, ms[0].key) && m in ms ==> m.key != key
    ensures ms[0].key == key && m in ms[1..] ==> m.key != key
  {
    LessIrreflexive(key);
    if m in ms[1..] {
      var j :| 1 <= j < |ms| && ms[j] == m;
      if Less(key, ms[0].key) { LessTransitive(key, ms[0].key, m.key); }
    }
  }

  /** Setting a member keeps the order, and every member is the new one or an old one. */
  lemma {:induction false} SetMemberKeeps(ms: seq<Member>, key: string, value: Json)
    requires KeysInOrder(ms)
    ensures var r := SetMember(ms, key, value);
      && KeysInOrder(r) && Member(key, value) in r
      && (forall m :: m in r ==> m == Member(key, value) || m in ms)
  {
    if ms != [] && !Less(key, ms[0].key) {
      assert KeysInOrder(ms[1..]);
      if ms[0].key != key {
        LessTotal(key, ms[0].key);
        SetMemberKeeps(ms[1..], key, value);
        var rest := SetMember(ms[1..], key, value);
        forall j | 0 <= j < |rest|
          ensures Less(ms[0].key, rest[j].key)
        {
          assert rest[j] in rest;
        }
      }
    } else if ms != [] {
      forall j | 0 < j < |ms|
        ensures Less(key, ms[j].key)
      {
        LessTransitive(key, ms[0].key, ms[j].key);
      }
    }
  }

  /** A key past the last one is appended. */
  lemma {:induction false} SetMemberAppends(ms: seq<Member>, key: string, value: Json)
    requires KeysInOrder(ms + [Member(key, value)])
    ensures SetMember(ms, key, value) == ms + [Member(key, value)]
  {
    if ms != [] {
      var all := ms + [Member(key, value)];
      assert Less(all[0].key, all[|ms|].key);
      if Less(key, ms[0].key) {
        LessTransitive(key, ms[0].key, key);
      }
      LessIrreflexive(key);
      assert all[1..] == ms[1..] + [Member(key, value)];
      assert KeysInOrder(all[1..]);
      SetMemberAppends(ms[1..], key, value);
    }
  }

  ghost predicate Sound(v: Json) { QuoteFree(v) && Ordered(v) }

  ghost predicate SoundMembers(ms: seq<Member>) {
    KeysInOrder(ms) && forall m :: m in ms ==> '"' !in m.key && Sound(m.value)
  }

  lemma SetMemberSound(ms: seq<Member>, key: string, value: Json)
    requires SoundMembers(ms) && '"' !in key && Sound(value)
    ensures SoundMembers(SetMember(ms, key, value))
  {
    SetMemberKeeps(ms, key, value);
  }

  /** A token read ahead is one the scanner gave out. */
  predicate AheadOk(i: Input) { i.ahead.Peeked? && i.ahead.token.StringToken? ==> '"' !in i.ahead.token.text }

  /** Whatever the text, a tree the parser returns has no quotes and its keys in order. */
  lemma {:induction false} NodeIsSound(i: Input)
    requires AheadOk(i)
    ensures var r := ParseNode(i); r.Parsed? ==> Sound(r.v) && AheadOk(r.input)
    decreases Left(i), 0
  {
    var (t, i1) := Next(i);
    match t
    case ObjectBegin =>
      var (t1, i2) := Next(i1);
      MembersAreSound(t1, i2, []);
    case ArrayBegin =>
      var (t1, i2) := Next(i1);
      if t1 != ArrayEnd { ElementsAreSound(i2.(ahead := Peeked(t1)), []); }
    case _ =>
  }

  lemma {:induction false} MembersAreSound(t: Token, i: Input, ms: seq<Member>)
    requires AheadOk(i) && (t.StringToken? ==> '"' !in t.text) && SoundMembers(ms)
    ensures var r := ParseMembers(t, i, ms); r.Parsed? ==> Sound(r.v) && AheadOk(r.input)
    decreases Left(i), 1
  {
    if t.StringToken? {
      var (colon, i1) := Next(i);
      NodeIsSound(i1);
      var node := ParseNode(i1);
      if colon == Colon && node.Parsed? {
        SetMemberSound(ms, t.text, node.v);
        var (sep, i3) := Next(node.input);
        var (t1, i4) := Next(i3);
        if sep == Comma { MembersAreSound(t1, i4, SetMember(ms, t.text, node.v)); }
      }
    }
  }

  lemma ArrayIsSound(es: seq<Json>)
    requires forall v :: v in es ==> Sound(v)
    ensures Sound(Array(es))
  {
    forall i | 0 <= i < |es|
      ensures QuoteFree(es[i]) && Ordered(es[i])
    {
      assert es[i] in es;
    }
  }

  lemma {:induction false} ElementsAreSound(i: Input, es: seq<Json>)
    requires AheadOk(i) && forall v :: v in es ==> Sound(v)
    ensures var r := ParseElements(i, es); r.Parsed? ==> Sound(r.v) && AheadOk(r.input)
    decreases Left(i), 1
  {
    NodeIsSound(i);
    var node := ParseNode(i);
    if node.Parsed? {
      var (sep, i2) := Next(node.input);
      ArrayIsSound(es + [node.v]);
      hide Sound;
      if sep == Comma { ElementsAreSound(i2, es + [node.v]); }
    }
  }

  // ---- what the printer writes reads back ---------------------------------------------------

  /** Blanks, tabs, line ends and feeds. */
  predicate Blank(ws: string) { forall k :: 0 <= k < |ws| ==> ws[k] == ' ' || 9 <= ws[k] as int <= 13 }

  lemma {:induction false} BlankIsSkipped(ws: string, s: string)
    requires Blank(ws)
    ensures Scan(ws + s) == Scan(s)
    ensures ParseNode(Input(ws + s, Nothing)) == ParseNode(Input(s, Nothing))
  {
    if ws == "" {
      assert ws + s == s;
    } else {
      assert (ws + s)[1..] == ws[1..] + s;
      BlankIsSkipped(ws[1..], s);
    }
  }

  /** Reading a token ahead and then parsing is parsing. */
  lemma PeekIsHarmless(s: string, elements: seq<Json>)
    ensures var (t, r) := Scan(s);
      ParseElements(Input(r, Peeked(t)), elements) == ParseElements(Input(s, Nothing), elements)
  {
    var (t, r) := Scan(s);
    assert Next(Input(r, Peeked(t))) == Next(Input(s, Nothing));
  }

  lemma {:induction false} StringReads(t: string, rest: string)
    requires '"' !in t
    ensures ReadString(t + "\"" + rest) == (StringToken(t), rest)
  {
    if t == "" {
      assert t + "\"" + rest == "\"" + rest;
    } else {
      assert (t + "\"" + rest)[1..] == t[1..] + "\"" + rest;
      StringReads(t[1..], rest);
      assert t == [t[0]] + t[1..];
    }
  }

  lemma QuotedReads(t: string, rest: string)
    requires '"' !in t
    ensures Scan(Quoted(t) + rest) == (StringToken(t), rest)
  {
    StringReads(t, rest);
    assert (Quoted(t) + rest)[1..] == t + "\"" + rest;
  }

  lemma {:induction false} KeywordReads(k: string, rest: string, t: Token)
    ensures ReadKeyword(k + rest, k, t) == (t, rest)
  {
    if k == "" {
      assert k + rest == rest;
    } else {
      assert (k + rest)[1..] == k[1..] + rest;
      KeywordReads(k[1..], rest, t);
    }
  }

  predicate AllDigits(d: string) { forall k :: 0 <= k < |d| ==> IsDigit(d[k]) }

  predicate NoDigitFirst(s: string) { s == "" || !IsDigit(s[0]) }

  lemma {:induction false} NumberReads(d: string, rest: string)
    requires AllDigits(d) && NoDigitFirst(rest)
    ensures ReadNumber(d + rest) == (d, rest)
  {
    if d == "" {
      assert d + rest == rest;
    } else {
      assert (d + rest)[1..] == d[1..] + rest;
      NumberReads(d[1..], rest);
      assert d == [d[0]] + d[1..];
    }
  }

  lemma {:induction false} DigitsHaveValue(n: nat)
    ensures AllDigits(Digits(n)) && Value(Digits(n)) == n
  {
    if n < 10 {
      assert Digits(n)[..0] == "";
    } else {
      DigitsHaveValue(n / 10);
      assert Digits(n)[..|Digits(n)| - 1] == Digits(n / 10);
    }
  }

  lemma DigitsScan(n: nat, rest: string)
    requires NoDigitFirst(rest)
    ensures Scan(Digits(n) + rest) == (NumberToken(Digits(n)), rest)
  {
    var d := Digits(n);
    DigitsHaveValue(n);
    NumberReads(d, rest);
    hide Digits, Value;
    assert IsDigit((d + rest)[0]);
  }

  lemma NaturalParses(n: Int32, rest: string)
    requires n >= 0 && NoDigitFirst(rest)
    ensures ParseNode(Input(Digits(n) + rest, Nothing)) == Parsed(Number(n), Input(rest, Nothing))
  {
    hide Scan, Digits, Value;
    DigitsScan(n, rest);
    DigitsHaveValue(n);
  }

  lemma MinusIsNoToken(s: string)
    ensures ParseNode(Input("-" + s, Nothing)) == SyntaxError
  {
    assert Scan("-" + s).0 == NoToken;
    hide Scan;
  }

  /** A printed number reads back if it is not negative; a minus sign is not a token. */
  lemma NumberParses(n: Int32, rest: string)
    requires NoDigitFirst(rest)
    ensures ParseNode(Input((if n < 0 then "-" + Digits(-(n as int)) else Digits(n)) + rest, Nothing)) ==
      if n >= 0 then Parsed(Number(n), Input(rest, Nothing)) else SyntaxError
  {
    hide ParseNode, Digits;
    if n >= 0 {
      NaturalParses(n, rest);
    } else {
      MinusIsNoToken(Digits(-(n as int)) + rest);
      Regroup("-", Digits(-(n as int)), rest);
    }
  }

  /** A printed node starts with a character that opens a node, or with a minus sign. */
  lemma TextStarts(v: Json, indent: bool, width: nat, level: nat)
    ensures var t := Text(v, indent, width, level); t != "" && !IsSpace(t[0]) && t[0] != ']' && t[0] != '}'
  {
    match v
    case Number(n) => DigitsHaveValue(if n < 0 then -(n as int) else n);
    case _ =>
  }

  /** `tail` closes what is being read: past blanks, the closing token, then `rest`. */
  predicate Ends(tail: string, close: Token, rest: string) {
    NoDigitFirst(tail) && Scan(tail) == (close, rest)
  }

  lemma SpacesAreBlank(level: nat)
    ensures Blank(NewLine(level)) && Blank(" ") && Blank("")
  {
  }

  lemma CloseEnds(broken: bool, level: nat, bracket: char, close: Token, rest: string)
    requires (bracket == ']' && close == ArrayEnd) || (bracket == '}' && close == ObjectEnd)
    ensures Ends(Close(broken, level) + [bracket] + rest, close, rest)
  {
    SpacesAreBlank(level);
    var ws := Close(broken, level);
    BlankIsSkipped(ws, [bracket] + rest);
    assert ws + [bracket] + rest == ws + ([bracket] + rest);
    assert ([bracket] + rest)[1..] == rest;
  }

  lemma ScanComma(s: string)
    ensures Scan("," + s) == (Comma, s)
  {
    assert ("," + s)[1..] == s;
  }

  ghost predicate AllNonNegative(es: seq<Json>) { forall i :: 0 <= i < |es| ==> NonNegative(es[i]) }

  ghost predicate PrintableElements(es: seq<Json>) { forall i :: 0 <= i < |es| ==> QuoteFree(es[i]) && Ordered(es[i]) }

  ghost predicate PrintableMembers(ms: seq<Member>) {
    forall i :: 0 <= i < |ms| ==> '"' !in ms[i].key && QuoteFree(ms[i].value) && Ordered(ms[i].value)
  }

  lemma Regroup<T>(a: seq<T>, b: seq<T>, c: seq<T>)
    ensures a + b + c == a + (b + c)
  {
  }

  lemma GapsAreBlank(first: bool, indent: bool, at: nat)
    ensures Blank(ElementGap(first, indent, at)) && Blank(MemberGap(indent, at))
  {
    SpacesAreBlank(at);
  }

  /** How an array's loop goes on once `es` is read and `after` is left. */
  function AfterElements(after: string, es: seq<Json>): Result {
    var (sep, rest) := Scan(after);
    if sep == ArrayEnd then Parsed(Array(es), Input(rest, Nothing))
    else if sep == Comma then ParseElements(Input(rest, Nothing), es)
    else SyntaxError
  }

  /** Text read by one node and then the rest of an array's loop. */
  lemma ElementStep(text: string, v: Json, after: string, acc: seq<Json>)
    requires ParseNode(Input(text, Nothing)) == if NonNegative(v) then Parsed(v, Input(after, Nothing)) else SyntaxError
    ensures ParseElements(Input(text, Nothing), acc) ==
      if NonNegative(v) then AfterElements(after, acc + [v]) else SyntaxError
  {
    hide Scan, NonNegative;
  }

  lemma ElementsBlank(ws: string, s: string, acc: seq<Json>)
    requires Blank(ws)
    ensures ParseElements(Input(ws + s, Nothing), acc) == ParseElements(Input(s, Nothing), acc)
  {
    BlankIsSkipped(ws, s);
    hide Scan, SkipSpaces;
  }

  /** What follows the first element: the tail, or a comma and the elements left. */
  function AfterElement(es: seq<Json>, indent: bool, width: nat, level: nat, tail: string): string
    requires es != []
  {
    if es[1..] == [] then tail
    else "," + (ElementGap(false, indent, level + width) + (FromElement(es[1..], indent, width, level) + tail))
  }

  lemma ElementFirst(es: seq<Json>, indent: bool, width: nat, level: nat, tail: string)
    requires es != []
    ensures FromElement(es, indent, width, level) + tail ==
      Text(es[0], indent, width, level + width) + AfterElement(es, indent, width, level, tail)
  {
    var text, more := Text(es[0], indent, width, level + width), ElementsText(es[1..], false, indent, width, level);
    Regroup(text, more, tail);
    if es[1..] != [] {
      var gap, next := ElementGap(false, indent, level + width), FromElement(es[1..], indent, width, level);
      Regroup(",", gap + next, tail);
      Regroup(gap, next, tail);
    }
  }

  lemma AllSplit(es: seq<Json>)
    requires es != []
    ensures AllNonNegative(es) <==> NonNegative(es[0]) && AllNonNegative(es[1..])
    ensures PrintableElements(es) ==> PrintableElements(es[1..])
  {
    hide NonNegative, QuoteFree, Ordered;
  }

  /** The elements of an array read back, whatever follows the last one. */
  lemma {:induction false} ElementsParse(
      es: seq<Json>, indent: bool, width: nat, level: nat, acc: seq<Json>, tail: string)
    requires es != [] && PrintableElements(es) && NoDigitFirst(tail)
    ensures ParseElements(Input(FromElement(es, indent, width, level) + tail, Nothing), acc) ==
      if AllNonNegative(es) then AfterElements(tail, acc + es) else SyntaxError
    decreases es, 0
  {
    hide Text, ElementsText, FromElement, ElementGap, ParseNode, ParseElements, Scan, QuoteFree, Ordered, NonNegative;
    var text, after := Text(es[0], indent, width, level + width), AfterElement(es, indent, width, level, tail);
    ElementFirst(es, indent, width, level, tail);
    AllSplit(es);
    NodeParses(es[0], indent, width, level + width, after);
    ElementStep(text + after, es[0], after, acc);
    if es[1..] == [] {
      assert es == [es[0]];
    } else {
      var gap, next := ElementGap(false, indent, level + width), FromElement(es[1..], indent, width, level);
      ScanComma(gap + (next + tail));
      GapsAreBlank(false, indent, level + width);
      ElementsBlank(gap, next + tail, acc + [es[0]]);
      ElementsParse(es[1..], indent, width, level, acc + [es[0]], tail);
      Regroup(acc, [es[0]], es[1..]);
      assert es == [es[0]] + es[1..];
    }
  }

  lemma {:induction false} NodeParses(v: Json, indent: bool, width: nat, level: nat, rest: string)
    requires QuoteFree(v) && Ordered(v) && (v.Number? ==> NoDigitFirst(rest))
    ensures ParseNode(Input(Text(v, indent, width, level) + rest, Nothing)) ==
      if NonNegative(v) then Parsed(v, Input(rest, Nothing)) else SyntaxError
    decreases v, 1
  {
    hide ParseNode;
    match v
    case Object(ms) => ObjectParses(ms, indent, width, level, rest);
    case Array(es) => ArrayParses(es, indent, width, level, rest);
    case String(s) => StringParses(s, rest);
    case Number(n) => NumberParses(n, rest);
    case Bool(b) => WordParses(v, rest);
    case Nil => WordParses(v, rest);
  }

  lemma StringParses(s: string, rest: string)
    requires '"' !in s
    ensures ParseNode(Input(Quoted(s) + rest, Nothing)) == Parsed(String(s), Input(rest, Nothing))
  {
    QuotedReads(s, rest);
    hide Scan, Quoted;
  }

  lemma WordParses(v: Json, rest: string)
    requires v.Bool? || v.Nil?
    ensures ParseNode(Input((if v.Nil? then "null" else if v.flag then "true" else "false") + rest, Nothing)) ==
      Parsed(v, Input(rest, Nothing))
  {
    var (word, t) := if v.Nil? then ("null", NullToken) else if v.flag then ("true", TrueToken) else ("false", FalseToken);
    KeywordReads(word, rest, t);
    assert Scan(word + rest) == (t, rest);
    hide Scan;
  }

  /** The text of an array up to its last element, whatever follows. */
  lemma {:induction false} ArrayOpens(es: seq<Json>, indent: bool, width: nat, level: nat, tail: string)
    requires PrintableElements(es) && NoDigitFirst(tail)
    ensures ParseNode(Input("[" + (ElementsText(es, true, indent, width, level) + tail), Nothing)) ==
      if es == [] then (if Scan(tail).0 == ArrayEnd then Parsed(Array([]), Input(Scan(tail).1, Nothing))
                        else ParseElements(Input(tail, Nothing), []))
      else if AllNonNegative(es) then AfterElements(tail, es) else SyntaxError
    decreases es, 1
  {
    hide Scan, ParseNode, ParseElements, ElementsText, FromElement, NonNegative, QuoteFree, Ordered, ElementGap, Text, AfterElements;
    if es == [] {
      NoMembers(indent, width, level);
      assert "" + tail == tail;
      OpenArray(tail);
    } else {
      var gap, from := ElementGap(true, indent, level + width), FromElement(es, indent, width, level);
      FirstElement(es, indent, width, level);
      Regroup(gap, from, tail);
      OpenArray(gap + (from + tail));
      GapsAreBlank(true, indent, level + width);
      BlankIsSkipped(gap, from + tail);
      ElementsBlank(gap, from + tail, []);
      ElementFirst(es, indent, width, level, tail);
      TextStarts(es[0], indent, width, level + width);
      NotTheEnd(from + tail);
      ElementsParse(es, indent, width, level, [], tail);
      assert [] + es == es;
    }
  }

  lemma FirstElement(es: seq<Json>, indent: bool, width: nat, level: nat)
    requires es != []
    ensures ElementsText(es, true, indent, width, level) == ElementGap(true, indent, level + width) + FromElement(es, indent, width, level)
  {
    hide FromElement, ElementGap;
  }

  lemma ArrayText(es: seq<Json>, indent: bool, width: nat, level: nat, rest: string)
    ensures Text(Array(es), indent, width, level) + rest ==
      "[" + (ElementsText(es, true, indent, width, level) + (Close(indent && es != [], level) + "]" + rest))
  {
    hide ElementsText, Close;
    var body, close := ElementsText(es, true, indent, width, level), Close(indent && es != [], level) + "]";
    Regroup("[", body + close, rest);
    Regroup(body, close, rest);
  }

  lemma {:induction false} ArrayParses(es: seq<Json>, indent: bool, width: nat, level: nat, rest: string)
    requires PrintableElements(es)
    ensures ParseNode(Input(Text(Array(es), indent, width, level) + rest, Nothing)) ==
      if AllNonNegative(es) then Parsed(Array(es), Input(rest, Nothing)) else SyntaxError
    decreases es, 2
  {
    hide Scan, ParseNode, ElementsText, NonNegative, Text, PrintableElements, Close, ParseElements;
    CloseEnds(indent && es != [], level, ']', ArrayEnd, rest);
    ArrayText(es, indent, width, level, rest);
    ArrayOpens(es, indent, width, level, Close(indent && es != [], level) + "]" + rest);
  }

  lemma NotTheEnd(s: string)
    requires s != "" && !IsSpace(s[0]) && s[0] != ']' && s[0] != '}'
    ensures Scan(s).0 != ArrayEnd && Scan(s).0 != ObjectEnd
  {
  }

  lemma OpenArray(s: string)
    ensures ParseNode(Input("[" + s, Nothing)) ==
      var (t, r) := Scan(s); if t == ArrayEnd then Parsed(Array([]), Input(r, Nothing)) else ParseElements(Input(s, Nothing), [])
  {
    assert ("[" + s)[1..] == s;
    assert Scan("[" + s) == (ArrayBegin, s);
    PeekIsHarmless(s, []);
  }

  // ---- objects --------------------------------------------------------------------------------

  /** The rest of an object's text, with its first token taken. */
  function MembersFrom(text: string, acc: seq<Member>): Result {
    var (t, rest) := Scan(text);
    ParseMembers(t, Input(rest, Nothing), acc)
  }

  /** How an object's loop goes on once `ms` is read and `after` is left. */
  function AfterMembers(after: string, ms: seq<Member>): Result {
    var (sep, rest) := Scan(after);
    if sep == ObjectEnd then Parsed(Object(ms), Input(rest, Nothing))
    else if sep == Comma then MembersFrom(rest, ms)
    else SyntaxError
  }

  lemma MemberStep(key: string, text: string, v: Json, after: string, acc: seq<Member>)
    requires '"' !in key
    requires ParseNode(Input(text, Nothing)) == if NonNegative(v) then Parsed(v, Input(after, Nothing)) else SyntaxError
    ensures MembersFrom(Quoted(key) + (": " + text), acc) ==
      if NonNegative(v) then AfterMembers(after, SetMember(acc, key, v)) else SyntaxError
  {
    QuotedReads(key, ": " + text);
    assert (": " + text)[1..] == " " + text;
    assert Scan(": " + text) == (Colon, " " + text);
    BlankIsSkipped(" ", text);
    hide Scan, NonNegative, SetMember, Quoted;
  }

  function AfterMember(ms: seq<Member>, indent: bool, width: nat, level: nat, tail: string): string
    requires ms != []
  {
    if ms[1..] == [] then tail
    else "," + (MemberGap(indent, level + width) + (FromMember(ms[1..], indent, width, level) + tail))
  }

  lemma MembersThenTail(ms: seq<Member>, indent: bool, width: nat, level: nat, tail: string)
    ensures MembersText(ms, false, indent, width, level) + tail ==
      if ms == [] then tail else "," + (MemberGap(indent, level + width) + (FromMember(ms, indent, width, level) + tail))
  {
    if ms != [] {
      var gap, next := MemberGap(indent, level + width), FromMember(ms, indent, width, level);
      assert MembersText(ms, false, indent, width, level) == "," + (gap + next);
      hide *;
      Regroup(",", gap + next, tail);
      Regroup(gap, next, tail);
    }
  }

  lemma MemberFirst(ms: seq<Member>, indent: bool, width: nat, level: nat, tail: string)
    requires ms != []
    ensures FromMember(ms, indent, width, level) + tail ==
      Quoted(ms[0].key) + (": " + (Text(ms[0].value, indent, width, level + width) + AfterMember(ms, indent, width, level, tail)))
  {
    var key, text := Quoted(ms[0].key), Text(ms[0].value, indent, width, level + width);
    var more := MembersText(ms[1..], false, indent, width, level);
    Regroup(key, ": " + (text + more), tail);
    Regroup(": ", text + more, tail);
    Regroup(text, more, tail);
    MembersThenTail(ms[1..], indent, width, level, tail);
    hide Text, Quoted, MembersText;
  }

  lemma AllMembersSplit(ms: seq<Member>)
    requires ms != []
    ensures AllMembersNonNegative(ms) <==> NonNegative(ms[0].value) && AllMembersNonNegative(ms[1..])
    ensures PrintableMembers(ms) ==> PrintableMembers(ms[1..])
  {
    hide NonNegative, QuoteFree, Ordered;
  }

  /** The members of an object read back, whatever follows the last one. */
  lemma {:induction false} MembersParse(
      ms: seq<Member>, indent: bool, width: nat, level: nat, acc: seq<Member>, tail: string)
    requires ms != [] && PrintableMembers(ms) && KeysInOrder(acc + ms) && NoDigitFirst(tail)
    ensures MembersFrom(FromMember(ms, indent, width, level) + tail, acc) ==
      if AllMembersNonNegative(ms) then AfterMembers(tail, acc + ms) else SyntaxError
    decreases ms, 0
  {
    hide Text, MembersText, FromMember, MemberGap, ParseNode, ParseMembers, Scan, QuoteFree, Ordered, NonNegative, SetMember, Quoted;
    var key, v := ms[0].key, ms[0].value;
    var text, after := Text(v, indent, width, level + width), AfterMember(ms, indent, width, level, tail);
    MemberFirst(ms, indent, width, level, tail);
    AllMembersSplit(ms);
    AppendsInOrder(acc, ms);
    NodeParses(v, indent, width, level + width, after);
    MemberStep(key, text + after, v, after, acc);
    if ms[1..] == [] {
      assert ms == [ms[0]];
    } else {
      var gap, next := MemberGap(indent, level + width), FromMember(ms[1..], indent, width, level);
      ScanComma(gap + (next + tail));
      GapsAreBlank(false, indent, level + width);
      BlankIsSkipped(gap, next + tail);
      MembersParse(ms[1..], indent, width, level, acc + [ms[0]], tail);
    }
  }

  lemma AppendsInOrder(acc: seq<Member>, ms: seq<Member>)
    requires ms != [] && KeysInOrder(acc + ms)
    ensures SetMember(acc, ms[0].key, ms[0].value) == acc + [ms[0]]
    ensures acc + [ms[0]] + ms[1..] == acc + ms
  {
    assert acc + [ms[0]] + ms[1..] == acc + ms;
    assert KeysInOrder(acc + [ms[0]]) by {
      assert acc + [ms[0]] == (acc + ms)[..|acc| + 1];
    }
    SetMemberAppends(acc, ms[0].key, ms[0].value);
  }

  ghost predicate AllMembersNonNegative(ms: seq<Member>) { forall i :: 0 <= i < |ms| ==> NonNegative(ms[i].value) }

  lemma OpenObject(s: string)
    ensures ParseNode(Input("{" + s, Nothing)) == MembersFrom(s, [])
  {
    assert ("{" + s)[1..] == s;
    assert Scan("{" + s) == (ObjectBegin, s);
  }

  /** The text of an object up to its last member, whatever follows. */
  lemma {:induction false} ObjectOpens(ms: seq<Member>, indent: bool, width: nat, level: nat, tail: string)
    requires PrintableMembers(ms) && KeysInOrder(ms) && NoDigitFirst(tail)
    ensures ParseNode(Input("{" + (MembersText(ms, true, indent, width, level) + tail), Nothing)) ==
      if ms == [] then MembersFrom(tail, [])
      else if AllMembersNonNegative(ms) then AfterMembers(tail, ms) else SyntaxError
    decreases ms, 1
  {
    hide Scan, ParseNode, ParseMembers, MembersText, FromMember, NonNegative, KeysInOrder, QuoteFree, Ordered, MemberGap, Text;
    if ms == [] {
      NoMembers(indent, width, level);
      assert "" + tail == tail;
      OpenObject(tail);
    } else {
      var gap, from := MemberGap(indent, level + width), FromMember(ms, indent, width, level);
      FirstMember(ms, indent, width, level);
      Regroup(gap, from, tail);
      OpenObject(gap + (from + tail));
      GapsAreBlank(true, indent, level + width);
      BlankIsSkipped(gap, from + tail);
      assert [] + ms == ms;
      MembersParse(ms, indent, width, level, [], tail);
    }
  }

  lemma NoMembers(indent: bool, width: nat, level: nat)
    ensures MembersText([], true, indent, width, level) == "" && ElementsText([], true, indent, width, level) == ""
  {
  }

  lemma FirstMember(ms: seq<Member>, indent: bool, width: nat, level: nat)
    requires ms != []
    ensures MembersText(ms, true, indent, width, level) == MemberGap(indent, level + width) + FromMember(ms, indent, width, level)
  {
    hide FromMember, MemberGap;
  }

  lemma ObjectText(ms: seq<Member>, indent: bool, width: nat, level: nat, rest: string)
    ensures Text(Object(ms), indent, width, level) + rest ==
      "{" + (MembersText(ms, true, indent, width, level) + (Close(indent && ms != [], level) + "}" + rest))
  {
    hide MembersText, Close;
    var body, close := MembersText(ms, true, indent, width, level), Close(indent && ms != [], level) + "}";
    Regroup("{", body + close, rest);
    Regroup(body, close, rest);
  }

  lemma {:induction false} ObjectParses(ms: seq<Member>, indent: bool, width: nat, level: nat, rest: string)
    requires PrintableMembers(ms) && KeysInOrder(ms)
    ensures ParseNode(Input(Text(Object(ms), indent, width, level) + rest, Nothing)) ==
      if AllMembersNonNegative(ms) then Parsed(Object(ms), Input(rest, Nothing)) else SyntaxError
    decreases ms, 2
  {
    hide Scan, ParseNode, MembersText, NonNegative, KeysInOrder, Text, PrintableMembers, Close;
    CloseEnds(indent && ms != [], level, '}', ObjectEnd, rest);
    ObjectText(ms, indent, width, level, rest);
    ObjectOpens(ms, indent, width, level, Close(indent && ms != [], level) + "}" + rest);
  }

  // ---- the round trip -------------------------------------------------------------------------

  /**
   * Printed with any indentation and parsed again, a tree comes back exactly when no string or key holds
   * a quote and no number is negative.
   */
  lemma RoundTrip(v: Json, indent: bool, width: nat)
    requires Ordered(v)
    ensures (Parse(Text(v, indent, width, 0)).Parsed? && Parse(Text(v, indent, width, 0)).v == v)
      <==> QuoteFree(v) && NonNegative(v)
  {
    var text := Text(v, indent, width, 0);
    if QuoteFree(v) {
      NodeParses(v, indent, width, 0, "");
      assert text + "" == text;
    }
    NodeIsSound(Input(text, Nothing));
  }

  // ---- what else the parser accepts -------------------------------------------------------------

  lemma CommaThenClose(ws: string, bracket: char, rest: string)
    requires Blank(ws) && (bracket == ']' || bracket == '}')
    ensures Scan("," + (ws + ([bracket] + rest))) == (Comma, ws + ([bracket] + rest))
    ensures Scan(ws + ([bracket] + rest)) == (if bracket == ']' then ArrayEnd else ObjectEnd, rest)
  {
    ScanComma(ws + ([bracket] + rest));
    BlankIsSkipped(ws, [bracket] + rest);
    assert ([bracket] + rest)[1..] == rest;
  }

  /** After a member, in any object, a comma and a brace end the object as the brace alone does. */
  lemma CommaAfterMembers(ms: seq<Member>, ws: string, rest: string)
    requires Blank(ws)
    ensures AfterMembers("," + (ws + ("}" + rest)), ms) == Parsed(Object(ms), Input(rest, Nothing))
    ensures AfterMembers("}" + rest, ms) == Parsed(Object(ms), Input(rest, Nothing))
  {
    CommaThenClose(ws, '}', rest);
    CommaThenClose("", '}', rest);
    assert "" + ("}" + rest) == "}" + rest;
    hide Scan;
  }

  /** After an element, in any array, a comma and a bracket are an error. */
  lemma CommaAfterElements(es: seq<Json>, ws: string, rest: string)
    requires Blank(ws)
    ensures AfterElements("," + (ws + ("]" + rest)), es) == SyntaxError
  {
    hide Scan;
    CommaThenClose(ws, ']', rest);
    assert ParseNode(Input(ws + ("]" + rest), Nothing)) == SyntaxError;
  }

  /** A comma may stand before the closing brace exactly if a member stands before it, and is then ignored. */
  lemma CommaBeforeBrace(ms: seq<Member>, indent: bool, width: nat, level: nat, ws: string, rest: string)
    requires Blank(ws) && PrintableMembers(ms) && KeysInOrder(ms)
    ensures ParseNode(Input("{" + (MembersText(ms, true, indent, width, level) + ("," + (ws + ("}" + rest)))), Nothing)) ==
      if ms != [] && AllMembersNonNegative(ms) then Parsed(Object(ms), Input(rest, Nothing)) else SyntaxError
  {
    hide Scan, ParseNode, MembersText, AllMembersNonNegative, KeysInOrder, PrintableMembers, AfterMembers;
    ObjectOpens(ms, indent, width, level, "," + (ws + ("}" + rest)));
    CommaThenClose(ws, '}', rest);
    CommaAfterMembers(ms, ws, rest);
  }

  /** A comma before the closing bracket is always an error. */
  lemma CommaBeforeBracket(es: seq<Json>, indent: bool, width: nat, level: nat, ws: string, rest: string)
    requires Blank(ws) && PrintableElements(es)
    ensures ParseNode(Input("[" + (ElementsText(es, true, indent, width, level) + ("," + (ws + ("]" + rest)))), Nothing)) ==
      SyntaxError
  {
    hide Scan, ElementsText, AllNonNegative, PrintableElements, AfterElements;
    ArrayOpens(es, indent, width, level, "," + (ws + ("]" + rest)));
    CommaThenClose(ws, ']', rest);
    CommaAfterElements(es, ws, rest);
    assert ParseNode(Input("," + (ws + ("]" + rest)), Nothing)) == SyntaxError;
  }

  // ---- text after the first value ---------------------------------------------------------------

  function More(i: Input, u: string): Input { Input(i.rest + u, i.ahead) }

  lemma {:induction false} SkipMore(s: string, u: string)
    requires SkipSpaces(s) != ""
    ensures SkipSpaces(s + u) == SkipSpaces(s) + u
  {
    if IsSpace(s[0]) {
      assert (s + u)[1..] == s[1..] + u;
      SkipMore(s[1..], u);
    }
  }

  lemma {:induction false} StringMore(s: string, u: string)
    requires ReadString(s).0 != NoToken
    ensures ReadString(s).0.StringToken? && ReadString(s + u) == (ReadString(s).0, ReadString(s).1 + u)
  {
    assert (s + u)[1..] == s[1..] + u;
    if s[0] != '"' { StringMore(s[1..], u); }
  }

  lemma {:induction false} KeywordMore(s: string, keyword: string, token: Token, u: string)
    requires token != NoToken && ReadKeyword(s, keyword, token).0 != NoToken
    ensures ReadKeyword(s, keyword, token).0 == token
    ensures ReadKeyword(s + u, keyword, token) == (token, ReadKeyword(s, keyword, token).1 + u)
  {
    if keyword != "" {
      assert (s + u)[1..] == s[1..] + u;
      KeywordMore(s[1..], keyword[1..], token, u);
    }
  }

  lemma {:induction false} NumberMore(s: string, u: string)
    ensures ReadNumber(s).1 != "" ==> ReadNumber(s + u) == (ReadNumber(s).0, ReadNumber(s).1 + u)
    ensures ReadNumber(s).1 == "" ==> ReadNumber(s + u) == (s + ReadNumber(u).0, ReadNumber(u).1)
  {
    if s == "" {
      assert s + u == u && s + ReadNumber(u).0 == ReadNumber(u).0;
    } else if IsDigit(s[0]) {
      assert (s + u)[1..] == s[1..] + u;
      NumberMore(s[1..], u);
      assert s == [s[0]] + s[1..];
      assert s + ReadNumber(u).0 == [s[0]] + (s[1..] + ReadNumber(u).0);
    }
  }

  /** The number in hand ends the text, and more digits follow. */
  predicate Glues(number: bool, rest: string, u: string) { number && rest == "" && !NoDigitFirst(u) }

  lemma {:induction false} SkipIsDone(s: string)
    ensures SkipSpaces(SkipSpaces(s)) == SkipSpaces(s)
    ensures SkipSpaces(s) != "" ==> !IsSpace(SkipSpaces(s)[0])
  {
    if s != "" && IsSpace(s[0]) { SkipIsDone(s[1..]); }
  }

  lemma NoSkip(t: string)
    requires t != "" && !IsSpace(t[0])
    ensures SkipSpaces(t) == t
  {
  }

  lemma DigitsScanAs(t: string)
    requires t != "" && IsDigit(t[0])
    ensures Scan(t) == (NumberToken(ReadNumber(t).0), ReadNumber(t).1)
  {
    hide SkipSpaces, ReadString, ReadKeyword, ReadNumber;
    NoSkip(t);
  }

  lemma NumberTokenMore(t: string, u: string)
    requires t != "" && IsDigit(t[0])
    ensures Scan(t) == (NumberToken(ReadNumber(t).0), ReadNumber(t).1)
    ensures if Glues(true, ReadNumber(t).1, u)
      then Scan(t + u).0.NumberToken? && |Scan(t + u).1| < |u|
      else Scan(t + u) == (Scan(t).0, Scan(t).1 + u)
  {
    hide Scan;
    DigitsScanAs(t);
    DigitsScanAs(t + u);
    NumberMore(t, u);
    if ReadNumber(t).1 == "" {
      assert t == ReadNumber(t).0;
      assert u == ReadNumber(u).0 + ReadNumber(u).1;
      if NoDigitFirst(u) { assert t + "" == t && "" + u == u; }
    }
  }

  lemma TokenMore(t: string, u: string)
    requires t != "" && !IsSpace(t[0]) && Scan(t).0 != NoToken
    ensures if Glues(Scan(t).0.NumberToken?, Scan(t).1, u)
      then Scan(t + u).0.NumberToken? && |Scan(t + u).1| < |u|
      else Scan(t + u) == (Scan(t).0, Scan(t).1 + u)
  {
    hide SkipSpaces, ReadString, ReadKeyword, ReadNumber;
    assert (t + u)[0] == t[0] && (t + u)[1..] == t[1..] + u;
    NoSkip(t);
    NoSkip(t + u);
    if IsDigit(t[0]) {
      NumberTokenMore(t, u);
    } else if t[0] == '"' {
      StringMore(t[1..], u);
    } else if t[0] == 'f' {
      KeywordMore(t, "false", FalseToken, u);
    } else if t[0] == 't' {
      KeywordMore(t, "true", TrueToken, u);
    } else if t[0] == 'n' {
      KeywordMore(t, "null", NullToken, u);
    }
  }

  lemma ScanMore(s: string, u: string)
    requires Scan(s).0 != NoToken
    ensures if Glues(Scan(s).0.NumberToken?, Scan(s).1, u)
      then Scan(s + u).0.NumberToken? && |Scan(s + u).1| < |u|
      else Scan(s + u) == (Scan(s).0, Scan(s).1 + u)
  {
    var t := SkipSpaces(s);
    SkipIsDone(s);
    ScanSkips(s);
    SkipMore(s, u);
    TokenMore(t, u);
    ScanSkips(s + u);
    ScanSkips(t + u);
    hide Scan;
  }

  lemma ScanSkips(s: string)
    ensures Scan(SkipSpaces(s)) == Scan(s)
    ensures Scan(s).0 != NoToken ==> SkipSpaces(s) != ""
  {
    SkipIsDone(s);
  }

  lemma NextMore(i: Input, u: string)
    requires Next(i).0 != NoToken && !Glues(Next(i).0.NumberToken?, Next(i).1.rest, u)
    ensures Next(More(i, u)) == (Next(i).0, More(Next(i).1, u))
  {
    if i.ahead == Nothing { ScanMore(i.rest, u); }
    hide Scan;
  }

  /** Text after a node does not change how the node reads, unless it goes on with the node's digits. */
  lemma {:induction false} NodeMore(i: Input, u: string)
    requires ParseNode(i).Parsed? && !Glues(ParseNode(i).v.Number?, ParseNode(i).input.rest, u)
    ensures ParseNode(More(i, u)) == Parsed(ParseNode(i).v, More(ParseNode(i).input, u))
    ensures ParseNode(i).input.ahead == Nothing
    ensures ParseNode(i).v.Number? ==> Next(i).0.NumberToken? && ParseNode(i).input == Next(i).1
    decreases Left(i), 0
  {
    hide Scan;
    var (t, i1) := Next(i);
    NextMore(i, u);
    match t
    case ObjectBegin =>
      var (t1, i2) := Next(i1);
      assert ParseNode(i) == ParseMembers(t1, i2, []);
      NextMore(i1, u);
      MembersMore(t1, i2, [], u);
    case ArrayBegin =>
      var (t1, i2) := Next(i1);
      if t1 != ArrayEnd {
        assert ParseNode(i) == ParseElements(Input(i2.rest, Peeked(t1)), []);
        GoesOn(i2.rest, t1);
      }
      NextMore(i1, u);
      if t1 != ArrayEnd { ElementsMore(i2.(ahead := Peeked(t1)), [], u); }
    case _ =>
  }

  lemma NothingLeft(i: Input)
    requires i == Input("", Nothing)
    ensures Next(i).0 == NoToken
  {
  }

  /** In an array that parses a first element stands, and not at the end of the text. */
  lemma GoesOn(rest: string, t: Token)
    requires ParseElements(Input(rest, Peeked(t)), []).Parsed?
    ensures t != NoToken && (t.NumberToken? ==> rest != "")
  {
    hide Scan;
    NothingLeft(Input("", Nothing));
  }

  lemma {:induction false} MembersMore(t: Token, i: Input, ms: seq<Member>, u: string)
    requires ParseMembers(t, i, ms).Parsed? && i.ahead == Nothing
    ensures ParseMembers(t, More(i, u), ms) == Parsed(ParseMembers(t, i, ms).v, More(ParseMembers(t, i, ms).input, u))
    ensures ParseMembers(t, i, ms).input.ahead == Nothing && ParseMembers(t, i, ms).v.Object?
    decreases Left(i), 1
  {
    hide Scan, SetMember;
    if t.StringToken? {
      var (_, i1) := Next(i);
      NextMore(i, u);
      var node := ParseNode(i1);
      var (sep, i3) := Next(node.input);
      NodeMore(i1, "");
      NothingLeft(Input("", Nothing));
      NodeMore(i1, u);
      NextMore(node.input, u);
      if sep == Comma {
        var (t1, i4) := Next(i3);
        NextMore(i3, u);
        MembersMore(t1, i4, SetMember(ms, t.text, node.v), u);
      }
    }
  }

  lemma {:induction false} ElementsMore(i: Input, es: seq<Json>, u: string)
    requires ParseElements(i, es).Parsed?
    ensures ParseElements(More(i, u), es) == Parsed(ParseElements(i, es).v, More(ParseElements(i, es).input, u))
    ensures ParseElements(i, es).input.ahead == Nothing && ParseElements(i, es).v.Array?
    decreases Left(i), 1
  {
    hide Scan;
    var node := ParseNode(i);
    var (sep, i2) := Next(node.input);
    NodeMore(i, "");
    NothingLeft(Input("", Nothing));
    NodeMore(i, u);
    NextMore(node.input, u);
    if sep == Comma { ElementsMore(i2, es + [node.v], u); }
  }

  /**
   * Whatever follows a text that parses is ignored, exactly unless the text is a number to its very end and
   * what follows starts with a digit.
   */
  lemma TrailingText(text: string, u: string)
    requires Parse(text).Parsed?
    ensures Parse(text).input.ahead == Nothing
    ensures var r := Parse(text);
      Parse(text + u) == Parsed(r.v, Input(r.input.rest + u, Nothing)) <==> !Glues(r.v.Number?, r.input.rest, u)
  {
    hide Scan;
    var i := Input(text, Nothing);
    NodeMore(i, "");
    if Glues(Parse(text).v.Number?, Parse(text).input.rest, u) {
      ScanMore(text, u);
    } else {
      NodeMore(i, u);
    }
  }
}
