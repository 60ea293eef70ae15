/** The printer's and the parser's loops of json.cc, proved against Json. */
module JsonParsers {
  import opened Spec = Json

  // ---- printing -------------------------------------------------------------------------------

  /** Appends the node's text to `result`. */
  method Serialize(v: Json, result: string, indent: bool, width: nat, level: nat) returns (r: string)
    ensures r == result + Text(v, indent, width, level)
    decreases v, 1
  {
    match v
    case Object(ms) => r := SerializeObject(ms, result, indent, width, level);
    case Array(es) => r := SerializeArray(es, result, indent, width, level);
    case String(s) => r := result + ("\"" + s + "\"");
    case Number(n) => r := result + if n < 0 then "-" + Digits(-(n as int)) else Digits(n);
    case Bool(b) => r := result + if b then "true" else "false";
    case Nil => r := result + "null";
  }

  /** One pass of the object's loop. */
  method SerializeMember(m: Member, result: string, first: bool, indent: bool, width: nat, level: nat) returns (r: string)
    ensures r == result + (CommaUnless(first) + (MemberGap(indent, level + width)
      + (Quoted(m.key) + (": " + Text(m.value, indent, width, level + width)))))
    decreases m, 0
  {
    hide Text;
    r := result;
    if !first { r := r + ","; }
    if indent {
      r := r + "\n";
      r := r + Spaces(level + width);
    } else {
      r := r + " ";
    }
    assert r == result + (CommaUnless(first) + MemberGap(indent, level + width));
    ghost var r1 := r;
    r := r + "\"";
    r := r + m.key;
    r := r + "\": ";
    assert r == r1 + (Quoted(m.key) + ": ");
    ghost var r2, text := r, Text(m.value, indent, width, level + width);
    r := Serialize(m.value, r, indent, width, level + width);
    MemberPieces(result, CommaUnless(first), MemberGap(indent, level + width), Quoted(m.key), text);
  }

  lemma MemberPieces(result: string, comma: string, gap: string, key: string, text: string)
    ensures result + (comma + gap) + (key + ": ") + text == result + (comma + (gap + (key + (": " + text))))
  {
    Regroup(result + (comma + gap), key + ": ", text);
    Regroup(key, ": ", text);
    Regroup(result, comma + gap, key + (": " + text));
    Regroup(comma, gap, key + (": " + text));
  }

  method SerializeObject(ms: seq<Member>, result: string, indent: bool, width: nat, level: nat) returns (r: string)
    ensures r == result + Text(Object(ms), indent, width, level)
    decreases ms, 1
  {
    r := result + "{";
    var first := true;
    ghost var all := MembersText(ms, true, indent, width, level);
    for k := 0 to |ms|
      invariant first <==> k == 0
      invariant r + MembersText(ms[k..], first, indent, width, level) == result + "{" + all
    {
      ghost var r0 := r;
      r := SerializeMember(ms[k], r, first, indent, width, level);
      assert ms[k..][1..] == ms[k + 1..];
      MemberPrinted(r0, ms[k..], first, indent, width, level);
      first := false;
      hide *;
    }
    assert ms[|ms|..] == [] && r == result + "{" + all;
    if indent && ms != [] {
      r := r + "\n";
      r := r + Spaces(level);
    }
    ClosePrinted(result, "{", all, Close(indent && ms != [], level), "}");
    r := r + "}";
  }

  lemma MemberPrinted(r0: string, ms: seq<Member>, first: bool, indent: bool, width: nat, level: nat)
    requires ms != []
    ensures r0 + (CommaUnless(first) + (MemberGap(indent, level + width)
              + (Quoted(ms[0].key) + (": " + Text(ms[0].value, indent, width, level + width)))))
        + MembersText(ms[1..], false, indent, width, level)
      == r0 + MembersText(ms, first, indent, width, level)
  {
    var comma, gap, key := CommaUnless(first), MemberGap(indent, level + width), Quoted(ms[0].key);
    var text, more := Text(ms[0].value, indent, width, level + width), MembersText(ms[1..], false, indent, width, level);
    assert MembersText(ms, first, indent, width, level) == comma + (gap + (key + (": " + (text + more))));
    hide *;
    Regroup(r0, comma + (gap + (key + (": " + text))), more);
    Regroup(comma, gap + (key + (": " + text)), more);
    Regroup(gap, key + (": " + text), more);
    Regroup(key, ": " + text, more);
    Regroup(": ", text, more);
  }

  lemma ClosePrinted(result: string, open: string, all: string, close: string, shut: string)
    ensures result + open + all + close + shut == result + (open + (all + (close + shut)))
  {
    Regroup(result, open, all);
    Regroup(result, open + all, close);
    Regroup(result, open + all + close, shut);
    assert open + all + close + shut == open + (all + (close + shut));
  }

  method SerializeElement(v: Json, result: string, first: bool, indent: bool, width: nat, level: nat) returns (r: string)
    ensures r == result + (CommaUnless(first) + (ElementGap(first, indent, level + width) + Text(v, indent, width, level + width)))
    decreases v, 2
  {
    r := result;
    if !first { r := r + ","; }
    if indent {
      r := r + "\n";
      r := r + Spaces(level + width);
    } else if !first {
      r := r + " ";
    }
    assert r == result + (CommaUnless(first) + ElementGap(first, indent, level + width));
    ghost var text := Text(v, indent, width, level + width);
    r := Serialize(v, r, indent, width, level + width);
    hide *;
    Regroup(result, CommaUnless(first) + ElementGap(first, indent, level + width), text);
    Regroup(CommaUnless(first), ElementGap(first, indent, level + width), text);
  }

  method SerializeArray(es: seq<Json>, result: string, indent: bool, width: nat, level: nat) returns (r: string)
    ensures r == result + Text(Array(es), indent, width, level)
    decreases es, 1
  {
    r := result + "[";
    var first := true;
    ghost var all := ElementsText(es, true, indent, width, level);
    for k := 0 to |es|
      invariant first <==> k == 0
      invariant r + ElementsText(es[k..], first, indent, width, level) == result + "[" + all
    {
      ghost var r0 := r;
      r := SerializeElement(es[k], r, first, indent, width, level);
      assert es[k..][1..] == es[k + 1..];
      ElementPrinted(r0, es[k..], first, indent, width, level);
      first := false;
      hide *;
    }
    assert es[|es|..] == [] && r == result + "[" + all;
    if indent && es != [] {
      r := r + "\n";
      r := r + Spaces(level);
    }
    ClosePrinted(result, "[", all, Close(indent && es != [], level), "]");
    r := r + "]";
  }

  lemma ElementPrinted(r0: string, es: seq<Json>, first: bool, indent: bool, width: nat, level: nat)
    requires es != []
    ensures r0 + (CommaUnless(first) + (ElementGap(first, indent, level + width) + Text(es[0], indent, width, level + width)))
        + ElementsText(es[1..], false, indent, width, level)
      == r0 + ElementsText(es, first, indent, width, level)
  {
    var comma, gap := CommaUnless(first), ElementGap(first, indent, level + width);
    var text, more := Text(es[0], indent, width, level + width), ElementsText(es[1..], false, indent, width, level);
    assert ElementsText(es, first, indent, width, level) == comma + (gap + (text + more));
    hide *;
    Regroup(r0, comma + (gap + text), more);
    Regroup(comma, gap + text, more);
    Regroup(gap, text, more);
  }

  // ---- parsing --------------------------------------------------------------------------------

  /** The parser object: what is left of the input, and a token read ahead. */
  class JsonParser {
    var input: string
    var lookAhead: bool
    var laToken: Token

    function View(): Input
      reads this
    {
      Input(input, if lookAhead then Peeked(laToken) else Nothing)
    }

    constructor ()
    {
      input, lookAhead, laToken := "", false, NoToken;
    }

    method Parse(text: string) returns (r: Result)
      modifies this
      ensures r == Spec.Parse(text)
    {
      input := text;
      lookAhead := false;
      r := ParseNode();
    }

    /** The node, and the parser left just past it; nothing is said of the input left after an error. */
    method ParseNode() returns (r: Result)
      modifies this
      ensures r == Spec.ParseNode(old(View()))
      ensures r.Parsed? ==> View() == r.input
      decreases Left(View()), 0
    {
      var t := NextToken();
      match t
      case ObjectBegin => r := ParseObject();
      case ArrayBegin => r := ParseArray();
      case StringToken(s) => r := Parsed(String(s), View());
      case NumberToken(d) => r := Parsed(Number(ToInt(d)), View());
      case TrueToken => r := Parsed(Bool(true), View());
      case FalseToken => r := Parsed(Bool(false), View());
      case NullToken => r := Parsed(Nil, View());
      case _ => r := SyntaxError;
    }

    method ParseObject() returns (r: Result)
      modifies this
      ensures r == Spec.ParseObject(old(View()))
      ensures r.Parsed? ==> View() == r.input
      decreases Left(View()), 2
    {
      ghost var start := View();
      var members: seq<Member> := [];
      var t := NextToken();
      while t != ObjectEnd
        invariant Left(View()) <= Left(start)
        invariant Spec.ParseObject(start) == ParseMembers(t, View(), members)
        decreases Left(View())
      {
        if !t.StringToken? { return SyntaxError; }
        var colon := NextToken();
        if colon != Colon { return SyntaxError; }
        var node := ParseNode();
        if node.SyntaxError? { return SyntaxError; }
        members := SetMember(members, t.text, node.v);
        t := NextToken();
        if t != Comma && t != ObjectEnd { return SyntaxError; }
        if t == Comma { t := NextToken(); }
      }
      r := Parsed(Object(members), View());
    }

    method ParseArray() returns (r: Result)
      requires !lookAhead
      modifies this
      ensures r == Spec.ParseArray(old(View()))
      ensures r.Parsed? ==> View() == r.input
      decreases Left(View()), 2
    {
      ghost var start := View();
      var elements: seq<Json> := [];
      var t := LookAhead();
      if t == ArrayEnd {
        var _ := NextToken();
      }
      while t != ArrayEnd
        invariant Left(View()) <= Left(start)
        invariant Spec.ParseArray(start) ==
          if t == ArrayEnd then Parsed(Array(elements), View()) else ParseElements(View(), elements)
        decreases Left(View()), t != ArrayEnd
      {
        var node := ParseNode();
        if node.SyntaxError? { return SyntaxError; }
        elements := elements + [node.v];
        t := NextToken();
        if t != Comma && t != ArrayEnd { return SyntaxError; }
      }
      r := Parsed(Array(elements), View());
    }

    method NextToken() returns (t: Token)
      modifies this
      ensures (t, View()) == Next(old(View())) && !lookAhead
    {
      if lookAhead {
        lookAhead := false;
        return laToken;
      }
      SkipWhitespace();
      if input == "" { return NoToken; }
      match input[0]
      case '{' => input := input[1..]; t := ObjectBegin;
      case '}' => input := input[1..]; t := ObjectEnd;
      case '[' => input := input[1..]; t := ArrayBegin;
      case ']' => input := input[1..]; t := ArrayEnd;
      case ',' => input := input[1..]; t := Comma;
      case ':' => input := input[1..]; t := Colon;
      case '"' => t := ReadStringToken();
      case 'f' => t := ReadKeywordToken("false", FalseToken);
      case 't' => t := ReadKeywordToken("true", TrueToken);
      case 'n' => t := ReadKeywordToken("null", NullToken);
      case _ => if IsDigit(input[0]) { t := ReadNumberToken(); } else { t := NoToken; }
    }

    /** Only called with no token read ahead. */
    method LookAhead() returns (t: Token)
      requires !lookAhead
      modifies this
      ensures t == Next(old(View())).0 && lookAhead && laToken == t
      ensures View() == Next(old(View())).1.(ahead := Peeked(t))
    {
      t := NextToken();
      laToken := t;
      lookAhead := true;
    }

    method SkipWhitespace()
      modifies this`input
      ensures input == SkipSpaces(old(input))
    {
      while input != "" && IsSpace(input[0])
        invariant SkipSpaces(input) == SkipSpaces(old(input))
        decreases |input|
      {
        input := input[1..];
      }
    }

    method ReadStringToken() returns (t: Token)
      requires input != ""
      modifies this`input
      ensures (t, input) == ReadString(old(input)[1..])
    {
      var token := "";
      input := input[1..];
      ghost var start := input;
      assert forall u: string :: "" + u == u;
      while input != ""
        invariant ReadString(start) ==
          var (u, rest) := ReadString(input); (if u.StringToken? then StringToken(token + u.text) else NoToken, rest)
        decreases |input|
      {
        if input[0] == '"' {
          input := input[1..];
          assert token + "" == token;
          return StringToken(token);
        }
        ghost var more := ReadString(input[1..]).0;
        assert more.StringToken? ==> token + ([input[0]] + more.text) == token + [input[0]] + more.text;
        token := token + [input[0]];
        input := input[1..];
      }
      return NoToken;
    }

    method ReadKeywordToken(keyword: string, token: Token) returns (t: Token)
      modifies this`input
      ensures (t, input) == ReadKeyword(old(input), keyword, token)
    {
      ghost var start := input;
      assert keyword[0..] == keyword;
      for i := 0 to |keyword|
        invariant ReadKeyword(start, keyword, token) == ReadKeyword(input, keyword[i..], token)
      {
        if input == "" || input[0] != keyword[i] { return NoToken; }
        assert keyword[i..][1..] == keyword[i + 1..];
        input := input[1..];
      }
      return token;
    }

    method ReadNumberToken() returns (t: Token)
      modifies this`input
      ensures t.NumberToken? && (t.digits, input) == ReadNumber(old(input))
    {
      var token := "";
      assert token + ReadNumber(input).0 == ReadNumber(input).0;
      while input != "" && IsDigit(input[0])
        invariant ReadNumber(old(input)) == (token + ReadNumber(input).0, ReadNumber(input).1)
        decreases |input|
      {
        assert token + ([input[0]] + ReadNumber(input[1..]).0) == token + [input[0]] + ReadNumber(input[1..]).0;
        token := token + [input[0]];
        input := input[1..];
      }
      assert token + "" == token;
      return NumberToken(token);
    }
  }
}
