/** The JSON text held by the hidden form field, with a printer
    (`JSON.stringify`) and a parser (`JSON.parse`) for the subset of JSON the
    widget writes: null, booleans, numbers, strings and objects.

    Numbers are exact reals, which have no finite decimal spelling, so the
    text keeps every number as a single symbol `Num(r)`; every other symbol
    is a character.  The printer follows `JSON.stringify` with an indentation
    gap, and the parser accepts whitespace between tokens, as `JSON.parse` does. */
module Json {
  import opened Wrappers

  datatype JChar = Ch(c: char) | Num(r: real)
  type Text = seq<JChar>

  datatype JValue =
    | JNull
    | JBool(b: bool)
    | JNum(n: real)
    | JStr(s: string)
    | JObj(members: seq<Member>)

  datatype Member = Member(key: string, value: JValue)

  /** A text made of characters only, such as a legacy bare path. */
  predicate IsPlain(t: Text) {
    forall i :: 0 <= i < |t| ==> t[i].Ch?
  }

  /** The characters of a plain text. */
  function Unlit(t: Text): (s: string)
    requires IsPlain(t)
    ensures |s| == |t| && forall i :: 0 <= i < |t| ==> t[i] == Ch(s[i])
  {
    seq(|t|, i requires 0 <= i < |t| => t[i].c)
  }

  /** A string as a plain text. */
  function Lit(s: string): (t: Text)
    ensures IsPlain(t) && Unlit(t) == s
  {
    seq(|s|, i requires 0 <= i < |s| => Ch(s[i]))
  }

  const NullText: Text := [Ch('n'), Ch('u'), Ch('l'), Ch('l')]
  const TrueText: Text := [Ch('t'), Ch('r'), Ch('u'), Ch('e')]
  const FalseText: Text := [Ch('f'), Ch('a'), Ch('l'), Ch('s'), Ch('e')]

  /** JavaScript truthiness of a parsed value. */
  predicate Truthy(j: JValue) {
    match j
    case JNull => false
    case JBool(b) => b
    case JNum(n) => n != 0.0
    case JStr(s) => s != ""
    case JObj(_) => true
  }

  // -------------------------------------------------------------- whitespace

  /** JSON whitespace: space, tab, line feed and carriage return. */
  predicate IsWs(c: JChar) {
    c == Ch(' ') || c == Ch('\t') || c == Ch('\n') || c == Ch('\r')
  }

  predicate AllWs(t: Text) {
    forall i :: 0 <= i < |t| ==> IsWs(t[i])
  }

  /** The text after its leading whitespace. */
  function SkipWs(t: Text): (r: Text)
    ensures |r| <= |t| && (r == [] || !IsWs(r[0]))
    decreases |t|
  {
    if t != [] && IsWs(t[0]) then SkipWs(t[1..]) else t
  }

  // ---------------------------------------------------------------- printing

  /** The body of a string literal: quote and backslash are escaped. */
  function Escape(s: string): (t: Text) {
    if s == [] then []
    else (if s[0] == '"' || s[0] == '\\' then [Ch('\\'), Ch(s[0])] else [Ch(s[0])]) + Escape(s[1..])
  }

  function Quote(s: string): (t: Text) {
    [Ch('"')] + Escape(s) + [Ch('"')]
  }

  /** The indentation step `'  '` that lines 294 and 300 pass to `JSON.stringify`. */
  const Gap: Text := [Ch(' '), Ch(' ')]

  /** A line break followed by `indent`, when there is a gap; nothing otherwise. */
  function Break(gap: Text, indent: Text): (t: Text) {
    if gap == [] then [] else [Ch('\n')] + indent
  }

  /** What follows a member's key: a colon, and a space when there is a gap. */
  function KeySep(gap: Text): (t: Text) {
    if gap == [] then [Ch(':')] else [Ch(':'), Ch(' ')]
  }

  /** `JSON.stringify(j, null, gap)` for a value nested at `indent`: with an
      empty gap the text is compact; otherwise each member of a non-empty
      object goes on its own line, indented by one more gap, and the closing
      brace on a line of its own. */
  function Stringify(j: JValue, gap: Text, indent: Text): (t: Text)
    decreases j
  {
    match j
    case JNull => NullText
    case JBool(b) => if b then TrueText else FalseText
    case JNum(n) => [Num(n)]
    case JStr(s) => Quote(s)
    case JObj(ms) =>
      if ms == [] then [Ch('{'), Ch('}')]
      else [Ch('{')] + Break(gap, indent + gap) + StringifyMembers(ms, gap, indent + gap)
           + Break(gap, indent) + [Ch('}')]
  }

  /** The members of a non-empty object at `indent`, separated by a comma
      and a line break. */
  function StringifyMembers(ms: seq<Member>, gap: Text, indent: Text): (t: Text)
    requires ms != []
    decreases ms
  {
    Quote(ms[0].key) + KeySep(gap) + Stringify(ms[0].value, gap, indent)
      + (if |ms| == 1 then [] else [Ch(',')] + Break(gap, indent) + StringifyMembers(ms[1..], gap, indent))
  }

  /** `JSON.stringify(j, null, '  ')`, the call of lines 294 and 300. */
  function Print(j: JValue): (t: Text) {
    Stringify(j, Gap, [])
  }

  // ----------------------------------------------------------------- parsing

  /** Reads a string body up to its closing quote; returns the string and the
      text after the quote. */
  function ParseString(t: Text): (r: Option<(string, Text)>)
    ensures r.Some? ==> |r.value.1| < |t|
    decreases |t|
  {
    if t == [] then None
    else match t[0]
      case Num(_) => None
      case Ch(c) =>
        if c == '"' then Some(("", t[1..]))
        else if c == '\\' then
          if |t| >= 2 && t[1].Ch? && (t[1].c == '"' || t[1].c == '\\') then
            match ParseString(t[2..])
            case None => None
            case Some((s, rest)) => Some(([t[1].c] + s, rest))
          else None
        else
          match ParseString(t[1..])
          case None => None
          case Some((s, rest)) => Some(([c] + s, rest))
  }

  /** Reads one value, after any whitespace, from the front of `t`; returns
      it and the rest. */
  function ParseValue(t: Text): (r: Option<(JValue, Text)>)
    ensures r.Some? ==> |r.value.1| < |t|
    decreases |t|, 1
  {
    var u := SkipWs(t);
    if u == [] then None
    else match u[0]
      case Num(n) => Some((JNum(n), u[1..]))
      case Ch(c) =>
        if c == '"' then
          match ParseString(u[1..])
          case None => None
          case Some((s, rest)) => Some((JStr(s), rest))
        else if c == '{' then
          var v := SkipWs(u[1..]);
          if v != [] && v[0] == Ch('}') then Some((JObj([]), v[1..]))
          else
            match ParseMembers(v)
            case None => None
            case Some((ms, rest)) => Some((JObj(ms), rest))
        else if |u| >= 4 && u[..4] == NullText then Some((JNull, u[4..]))
        else if |u| >= 4 && u[..4] == TrueText then Some((JBool(true), u[4..]))
        else if |u| >= 5 && u[..5] == FalseText then Some((JBool(false), u[5..]))
        else None
  }

  /** Reads `"key": value` pairs separated by commas, through the closing
      brace, with whitespace allowed around every token. */
  function ParseMembers(t: Text): (r: Option<(seq<Member>, Text)>)
    ensures r.Some? ==> |r.value.1| < |t| && r.value.0 != []
    decreases |t|, 0
  {
    var u := SkipWs(t);
    if u == [] || u[0] != Ch('"') then None
    else match ParseString(u[1..])
      case None => None
      case Some((k, t1)) =>
        var c := SkipWs(t1);
        if c == [] || c[0] != Ch(':') then None
        else match ParseValue(c[1..])
          case None => None
          case Some((v, t2)) =>
            var d := SkipWs(t2);
            if d == [] then None
            else if d[0] == Ch('}') then Some(([Member(k, v)], d[1..]))
            else if d[0] == Ch(',') then
              match ParseMembers(d[1..])
              case None => None
              case Some((ms, t3)) => Some(([Member(k, v)] + ms, t3))
            else None
  }

  /** `JSON.parse`: the whole text must be one value, up to whitespace. */
  function Parse(t: Text): (r: Option<JValue>) {
    match ParseValue(t)
    case None => None
    case Some((j, rest)) => if SkipWs(rest) == [] then Some(j) else None
  }

  /** What `updateValue` compares against: the stored text re-serialised, or
      the empty text when it is empty, does not parse or parses to a falsy value. */
  function Normalize(t: Text): (r: Text) {
    if t == [] then []
    else match Parse(t)
      case Some(j) => if Truthy(j) then Print(j) else []
      case None => []
  }

  // ------------------------------------------------------------------ proofs

  /** `ParseString` after one escaped character. */
  lemma ParseStringEscaped(c: char, u: Text)
    requires c == '"' || c == '\\'
    ensures ParseString([Ch('\\'), Ch(c)] + u) == match ParseString(u)
                                                   case None => None
                                                   case Some((s, rest)) => Some(([c] + s, rest))
  {
    assert ([Ch('\\'), Ch(c)] + u)[2..] == u;
  }

  /** `ParseString` after one plain character. */
  lemma ParseStringPlain(c: char, u: Text)
    requires c != '"' && c != '\\'
    ensures ParseString([Ch(c)] + u) == match ParseString(u)
                                        case None => None
                                        case Some((s, rest)) => Some(([c] + s, rest))
  {
    assert ([Ch(c)] + u)[1..] == u;
  }

  lemma {:induction false} StringRoundTrip(s: string, rest: Text)
    ensures ParseString(Escape(s) + [Ch('"')] + rest) == Some((s, rest))
    decreases |s|
  {
    var t := Escape(s) + [Ch('"')] + rest;
    if s == [] {
      assert t == [Ch('"')] + rest;
    } else {
      StringRoundTrip(s[1..], rest);
      var tail := Escape(s[1..]) + [Ch('"')] + rest;
      var head: Text := if s[0] == '"' || s[0] == '\\' then [Ch('\\'), Ch(s[0])] else [Ch(s[0])];
      assert Escape(s) == head + Escape(s[1..]);
      Assoc(head, Escape(s[1..]), [Ch('"')]);
      Assoc(head, Escape(s[1..]) + [Ch('"')], rest);
      if s[0] == '"' || s[0] == '\\' {
        ParseStringEscaped(s[0], tail);
      } else {
        ParseStringPlain(s[0], tail);
      }
      assert [s[0]] + s[1..] == s;
    }
  }

  lemma AllWsConcat(a: Text, b: Text)
    requires AllWs(a) && AllWs(b)
    ensures AllWs(a + b)
  {
    forall i | 0 <= i < |a + b|
      ensures IsWs((a + b)[i])
    {
      if i >= |a| {
        assert (a + b)[i] == b[i - |a|];
      }
    }
  }

  lemma BreakWs(gap: Text, indent: Text)
    requires AllWs(indent)
    ensures AllWs(Break(gap, indent))
  {
    if gap != [] {
      AllWsConcat([Ch('\n')], indent);
    }
  }

  /** Leading whitespace is skipped. */
  lemma {:induction false} SkipWsPrefix(w: Text, x: Text)
    requires AllWs(w)
    ensures SkipWs(w + x) == SkipWs(x)
    decreases |w|
  {
    if w != [] {
      assert (w + x)[1..] == w[1..] + x;
      SkipWsPrefix(w[1..], x);
    } else {
      assert w + x == x;
    }
  }

  /** `ParseValue` does not see leading whitespace. */
  lemma ParseValueWs(w: Text, t: Text)
    requires AllWs(w)
    ensures ParseValue(w + t) == ParseValue(t)
  {
    SkipWsPrefix(w, t);
  }

  /** `ParseMembers` does not see leading whitespace. */
  lemma ParseMembersWs(w: Text, t: Text)
    requires AllWs(w)
    ensures ParseMembers(w + t) == ParseMembers(t)
  {
    SkipWsPrefix(w, t);
  }

  /** A printed value is not empty and starts with a symbol that is not whitespace. */
  lemma StringifyStart(j: JValue, gap: Text, indent: Text, rest: Text)
    ensures Stringify(j, gap, indent) != []
    ensures SkipWs(Stringify(j, gap, indent) + rest) == Stringify(j, gap, indent) + rest
  {
    var t := Stringify(j, gap, indent);
    assert t[0] in {Ch('n'), Ch('t'), Ch('f'), Ch('"'), Ch('{')} || t[0].Num?;
    assert (t + rest)[0] == t[0];
  }

  lemma Assoc(a: Text, b: Text, c: Text)
    ensures (a + b) + c == a + (b + c)
  {
  }

  /** Six texts joined left to right, regrouped to the right. */
  lemma Assoc6(a: Text, b: Text, c: Text, d: Text, e: Text, f: Text)
    ensures a + b + c + d + e + f == a + (b + (c + (d + (e + f))))
  {
    Assoc(a + b + c + d, e, f);
    Assoc(a + b + c, d, e + f);
    Assoc(a + b, c, d + (e + f));
    Assoc(a, b, c + (d + (e + f)));
  }

  lemma KeywordRoundTrip(j: JValue, gap: Text, indent: Text, rest: Text)
    requires j.JNull? || j.JBool?
    ensures ParseValue(Stringify(j, gap, indent) + rest) == Some((j, rest))
  {
    var t := Stringify(j, gap, indent) + rest;
    StringifyStart(j, gap, indent, rest);
    if j.JNull? {
      assert t[..4] == NullText && t[4..] == rest;
    } else if j.b {
      assert t[..4] == TrueText && t[4..] == rest;
    } else {
      assert t[..5] == FalseText && t[5..] == rest;
      assert t[0] == Ch('f');
      assert t[..4] != NullText && t[..4] != TrueText;
    }
  }

  lemma ScalarRoundTrip(j: JValue, gap: Text, indent: Text, rest: Text)
    requires j.JNum? || j.JStr?
    ensures ParseValue(Stringify(j, gap, indent) + rest) == Some((j, rest))
  {
    var t := Stringify(j, gap, indent) + rest;
    StringifyStart(j, gap, indent, rest);
    if j.JNum? {
      assert t[1..] == rest;
    } else {
      assert t[1..] == Escape(j.s) + [Ch('"')] + rest;
      StringRoundTrip(j.s, rest);
    }
  }

  lemma EmptyObjRoundTrip(gap: Text, indent: Text, rest: Text)
    ensures ParseValue(Stringify(JObj([]), gap, indent) + rest) == Some((JObj([]), rest))
  {
    var t := Stringify(JObj([]), gap, indent) + rest;
    assert t == [Ch('{'), Ch('}')] + rest;
    StringifyStart(JObj([]), gap, indent, rest);
    assert t[1..] == [Ch('}')] + rest;
    assert SkipWs(t[1..]) == t[1..];
    assert t[2..] == rest;
  }

  lemma StringifyMembersStart(ms: seq<Member>, gap: Text, indent: Text, rest: Text)
    requires ms != []
    ensures var t := StringifyMembers(ms, gap, indent) + rest; t != [] && t[0] == Ch('"')
  {
    assert Quote(ms[0].key)[0] == Ch('"');
  }

  /** `ParseValue` on an opening brace whose next symbol past whitespace is not a closing one. */
  lemma ParseObjStep(t: Text)
    requires t != [] && t[0] == Ch('{')
    requires var v := SkipWs(t[1..]); v != [] && v[0] != Ch('}')
    ensures ParseValue(t) == match ParseMembers(SkipWs(t[1..]))
                             case None => None
                             case Some((ms, rest)) => Some((JObj(ms), rest))
  {
    assert SkipWs(t) == t;
  }

  /** An object round-trips once its members do. */
  lemma ObjRoundTrip(ms: seq<Member>, gap: Text, indent: Text, rest: Text)
    requires ms != [] && AllWs(gap) && AllWs(indent)
    requires ParseMembers(StringifyMembers(ms, gap, indent + gap) + (Break(gap, indent) + ([Ch('}')] + rest)))
             == Some((ms, rest))
    ensures ParseValue(Stringify(JObj(ms), gap, indent) + rest) == Some((JObj(ms), rest))
  {
    var b1, b2 := Break(gap, indent + gap), Break(gap, indent);
    var m := StringifyMembers(ms, gap, indent + gap);
    var u := m + (b2 + ([Ch('}')] + rest));
    var t := Stringify(JObj(ms), gap, indent) + rest;
    assert Stringify(JObj(ms), gap, indent) == [Ch('{')] + b1 + m + b2 + [Ch('}')];
    Assoc6([Ch('{')], b1, m, b2, [Ch('}')], rest);
    assert t[1..] == b1 + u;
    AllWsConcat(indent, gap);
    BreakWs(gap, indent + gap);
    SkipWsPrefix(b1, u);
    StringifyMembersStart(ms, gap, indent + gap, b2 + ([Ch('}')] + rest));
    assert SkipWs(u) == u;
    ParseObjStep(t);
  }

  lemma {:induction false} ValueRoundTrip(j: JValue, gap: Text, indent: Text, rest: Text)
    requires AllWs(gap) && AllWs(indent)
    ensures ParseValue(Stringify(j, gap, indent) + rest) == Some((j, rest))
    decreases j, 2
  {
    if j.JNull? || j.JBool? {
      KeywordRoundTrip(j, gap, indent, rest);
    } else if j.JNum? || j.JStr? {
      ScalarRoundTrip(j, gap, indent, rest);
    } else if j.members == [] {
      EmptyObjRoundTrip(gap, indent, rest);
    } else {
      AllWsConcat(indent, gap);
      BreakWs(gap, indent);
      MembersRoundTrip(j.members, gap, indent + gap, Break(gap, indent), rest);
      ObjRoundTrip(j.members, gap, indent, rest);
    }
  }

  /** What follows the first member's value in `StringifyMembers(ms, gap, indent)`. */
  function Tail(ms: seq<Member>, gap: Text, indent: Text): (t: Text)
    requires ms != []
  {
    if |ms| == 1 then [] else [Ch(',')] + Break(gap, indent) + StringifyMembers(ms[1..], gap, indent)
  }

  lemma StringifyMembersShape(ms: seq<Member>, gap: Text, indent: Text, rest: Text)
    requires ms != []
    ensures StringifyMembers(ms, gap, indent) + rest ==
      [Ch('"')] + (Escape(ms[0].key) + [Ch('"')]
        + (KeySep(gap) + (Stringify(ms[0].value, gap, indent) + (Tail(ms, gap, indent) + rest))))
  {
    var q, e, c, p, z := [Ch('"')], Escape(ms[0].key), KeySep(gap), Stringify(ms[0].value, gap, indent), Tail(ms, gap, indent);
    var a := q + e + q;
    assert StringifyMembers(ms, gap, indent) == ((a + c) + p) + z;
    Assoc((a + c) + p, z, rest);
    Assoc(a + c, p, z + rest);
    var w := c + (p + (z + rest));
    Assoc(a, c, p + (z + rest));
    Assoc(q + e, q, w);
    Assoc(q, e, q + w);
    Assoc(e, q, w);
  }

  /** One step of `ParseMembers` once the key and the value have been read. */
  lemma ParseMembersStep(t: Text, k: string, t1: Text, v: JValue, t2: Text)
    requires t != [] && t[0] == Ch('"') && ParseString(t[1..]) == Some((k, t1))
    requires t1 != [] && t1[0] == Ch(':') && ParseValue(t1[1..]) == Some((v, t2))
    ensures var d := SkipWs(t2);
      d != [] && d[0] == Ch('}') ==> ParseMembers(t) == Some(([Member(k, v)], d[1..]))
    ensures var d := SkipWs(t2);
      d != [] && d[0] == Ch(',') ==>
      ParseMembers(t) == match ParseMembers(d[1..])
                         case None => None
                         case Some((ms, t3)) => Some(([Member(k, v)] + ms, t3))
  {
    assert SkipWs(t) == t;
    assert SkipWs(t1) == t1;
  }

  /** The key of the first printed member is read back, up to the symbols after its colon. */
  lemma MemberKeyRead(ms: seq<Member>, gap: Text, indent: Text, close: Text)
    requires ms != []
    ensures var t, t2 := StringifyMembers(ms, gap, indent) + close, Tail(ms, gap, indent) + close;
      var t1 := KeySep(gap) + (Stringify(ms[0].value, gap, indent) + t2);
      t != [] && t[0] == Ch('"') && ParseString(t[1..]) == Some((ms[0].key, t1))
      && t1 != [] && t1[0] == Ch(':')
      && t1[1..] == KeySep(gap)[1..] + (Stringify(ms[0].value, gap, indent) + t2)
      && AllWs(KeySep(gap)[1..])
  {
    var t1 := KeySep(gap) + (Stringify(ms[0].value, gap, indent) + (Tail(ms, gap, indent) + close));
    StringifyMembersShape(ms, gap, indent, close);
    StringRoundTrip(ms[0].key, t1);
  }

  /** Reading the first member of printed members leaves what follows its value. */
  lemma {:induction false} MembersFirst(ms: seq<Member>, gap: Text, indent: Text, close: Text)
    requires ms != [] && AllWs(gap) && AllWs(indent)
    ensures var t, d := StringifyMembers(ms, gap, indent) + close, SkipWs(Tail(ms, gap, indent) + close);
      d != [] && d[0] == Ch('}') ==> ParseMembers(t) == Some(([ms[0]], d[1..]))
    ensures var t, d := StringifyMembers(ms, gap, indent) + close, SkipWs(Tail(ms, gap, indent) + close);
      d != [] && d[0] == Ch(',') ==>
      ParseMembers(t) == match ParseMembers(d[1..])
                         case None => None
                         case Some((rs, t3)) => Some(([ms[0]] + rs, t3))
    decreases ms, 0
  {
    var t := StringifyMembers(ms, gap, indent) + close;
    var t2 := Tail(ms, gap, indent) + close;
    var sv := Stringify(ms[0].value, gap, indent);
    var t1 := KeySep(gap) + (sv + t2);
    MemberKeyRead(ms, gap, indent, close);
    ParseValueWs(KeySep(gap)[1..], sv + t2);
    ValueRoundTrip(ms[0].value, gap, indent, t2);
    ParseMembersStep(t, ms[0].key, t1, ms[0].value, t2);
  }

  /** After the last member, whitespace and the closing brace end the object. */
  lemma LastMemberClose(w: Text, rest: Text)
    requires AllWs(w)
    ensures var d := SkipWs(w + ([Ch('}')] + rest)); d != [] && d[0] == Ch('}') && d[1..] == rest
  {
    SkipWsPrefix(w, [Ch('}')] + rest);
    assert SkipWs([Ch('}')] + rest) == [Ch('}')] + rest;
  }

  /** After a member that is not the last, the comma and the line break lead to the next member. */
  lemma NextMemberOpen(ms: seq<Member>, gap: Text, indent: Text, close: Text)
    requires |ms| > 1 && AllWs(gap) && AllWs(indent)
    ensures var d := SkipWs(Tail(ms, gap, indent) + close);
      d != [] && d[0] == Ch(',') && ParseMembers(d[1..]) == ParseMembers(StringifyMembers(ms[1..], gap, indent) + close)
  {
    var b := Break(gap, indent);
    var tail := StringifyMembers(ms[1..], gap, indent) + close;
    var t2 := Tail(ms, gap, indent) + close;
    Assoc([Ch(',')] + b, StringifyMembers(ms[1..], gap, indent), close);
    Assoc([Ch(',')], b, tail);
    assert t2 == [Ch(',')] + (b + tail);
    assert SkipWs(t2) == t2;
    assert t2[1..] == b + tail;
    BreakWs(gap, indent);
    ParseMembersWs(b, tail);
  }

  /** The members, any whitespace `w`, then the closing brace are read back. */
  lemma {:induction false} MembersRoundTrip(ms: seq<Member>, gap: Text, indent: Text, w: Text, rest: Text)
    requires ms != [] && AllWs(gap) && AllWs(indent) && AllWs(w)
    ensures ParseMembers(StringifyMembers(ms, gap, indent) + (w + ([Ch('}')] + rest))) == Some((ms, rest))
    decreases ms, 2
  {
    if |ms| == 1 {
      OneMemberRead(ms, gap, indent, w, rest);
    } else {
      MembersRoundTrip(ms[1..], gap, indent, w, rest);
      MoreMembersRead(ms, gap, indent, w + ([Ch('}')] + rest), rest);
    }
  }

  /** A single printed member, whitespace and the closing brace are read back. */
  lemma OneMemberRead(ms: seq<Member>, gap: Text, indent: Text, w: Text, rest: Text)
    requires |ms| == 1 && AllWs(gap) && AllWs(indent) && AllWs(w)
    ensures ParseMembers(StringifyMembers(ms, gap, indent) + (w + ([Ch('}')] + rest))) == Some((ms, rest))
    decreases ms, 1
  {
    var close := w + ([Ch('}')] + rest);
    MembersFirst(ms, gap, indent, close);
    assert Tail(ms, gap, indent) + close == close;
    LastMemberClose(w, rest);
    assert [ms[0]] == ms;
  }

  /** Printed members are read back once the members after the first are. */
  lemma MoreMembersRead(ms: seq<Member>, gap: Text, indent: Text, close: Text, rest: Text)
    requires |ms| > 1 && AllWs(gap) && AllWs(indent)
    requires ParseMembers(StringifyMembers(ms[1..], gap, indent) + close) == Some((ms[1..], rest))
    ensures ParseMembers(StringifyMembers(ms, gap, indent) + close) == Some((ms, rest))
    decreases ms, 1
  {
    NextMemberOpen(ms, gap, indent, close);
    var d := SkipWs(Tail(ms, gap, indent) + close);
    assert d != [] && d[0] == Ch(',') && ParseMembers(d[1..]) == Some((ms[1..], rest));
    MembersFirst(ms, gap, indent, close);
    assert [ms[0]] + ms[1..] == ms;
  }

  /** `JSON.parse` reads back what `JSON.stringify` printed, whatever the
      indentation and whatever whitespace surrounds it. */
  lemma ParseStringify(j: JValue, gap: Text, indent: Text, w1: Text, w2: Text)
    requires AllWs(gap) && AllWs(indent) && AllWs(w1) && AllWs(w2)
    ensures Parse(w1 + Stringify(j, gap, indent) + w2) == Some(j)
  {
    var t := Stringify(j, gap, indent);
    Assoc(w1, t, w2);
    ParseValueWs(w1, t + w2);
    ValueRoundTrip(j, gap, indent, w2);
    SkipWsPrefix(w2, []);
    assert w2 + [] == w2;
  }

  /** `JSON.parse(JSON.stringify(j, null, '  '))` gives back `j`. */
  lemma ParsePrint(j: JValue)
    ensures Parse(Print(j)) == Some(j)
  {
    assert AllWs(Gap);
    ParseStringify(j, Gap, [], [], []);
    assert [] + Print(j) + [] == Print(j);
  }

  lemma PrintNonEmpty(j: JValue)
    ensures Print(j) != []
  {
    StringifyStart(j, Gap, [], []);
  }

  /** A truthy value printed compact or indented by any whitespace gap,
      with any whitespace around it, normalises to the canonical two-space
      text. */
  lemma NormalizeWhitespace(j: JValue, gap: Text, indent: Text, w1: Text, w2: Text)
    requires Truthy(j) && AllWs(gap) && AllWs(indent) && AllWs(w1) && AllWs(w2)
    ensures Normalize(w1 + Stringify(j, gap, indent) + w2) == Print(j)
  {
    ParseStringify(j, gap, indent, w1, w2);
    StringifyStart(j, gap, indent, []);
  }

  /** A canonical text of a truthy value is its own normal form. */
  lemma NormalizePrint(j: JValue)
    requires Truthy(j)
    ensures Normalize(Print(j)) == Print(j)
  {
    ParsePrint(j);
    PrintNonEmpty(j);
  }

  /** Re-serialising the stored value a second time changes nothing. */
  lemma NormalizeIdempotent(t: Text)
    ensures Normalize(Normalize(t)) == Normalize(t)
  {
    if t != [] {
      match Parse(t)
      case Some(j) =>
        if Truthy(j) {
          NormalizePrint(j);
        }
      case None =>
    }
  }
}
