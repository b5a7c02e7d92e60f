/** Writing a JSON value out and reading it back: the text, its tokens, and the reader. */
module JsonReader {
  import opened JsonText
  import opened Results

  // ----- the text of a value -----

  function Text(j: Json): string {
    match j
    case Atom(text) => text
    case Str(raw) => "\"" + raw + "\""
    case Arr(items, close) => "[" + ItemsText(items, true) + close + "]"
    case Obj(members, close) => "{" + MembersText(members, true) + close + "}"
  }

  function Separator(first: bool): string {
    if first then "" else ","
  }

  function ItemsText(items: seq<Item>, first: bool): string {
    if items == [] then ""
    else Separator(first) + items[0].before + Text(items[0].value) + ItemsText(items[1..], false)
  }

  function MemberText(m: Member): string {
    m.before + "\"" + m.key + "\"" + ":" + m.after + Text(m.value)
  }

  function MembersText(members: seq<Member>, first: bool): string {
    if members == [] then ""
    else Separator(first) + MemberText(members[0]) + MembersText(members[1..], false)
  }

  // ----- white space -----

  /** Atoms and strings are well formed, and only white space stands around the parts. */
  predicate Well(j: Json) {
    match j
    case Atom(text) => ValidAtom(text)
    case Str(raw) => RawOk(raw) && Unquote(raw).Some?
    case Arr(items, close) => AllSpace(close) && WellItems(items)
    case Obj(members, close) => AllSpace(close) && WellMembers(members)
  }

  predicate WellItems(items: seq<Item>) {
    items == [] || (AllSpace(items[0].before) && Well(items[0].value) && WellItems(items[1..]))
  }

  predicate WellMember(m: Member) {
    AllSpace(m.before) && AllSpace(m.after) && RawOk(m.key) && Unquote(m.key).Some? && Well(m.value)
  }

  predicate WellMembers(members: seq<Member>) {
    members == [] || (WellMember(members[0]) && WellMembers(members[1..]))
  }

  /** The same value without white space. */
  function Compact(j: Json): Json {
    match j
    case Atom(_) => j
    case Str(_) => j
    case Arr(items, _) => Arr(CompactItems(items), "")
    case Obj(members, _) => Obj(CompactMembers(members), "")
  }

  function CompactItems(items: seq<Item>): (c: seq<Item>)
    ensures |c| == |items|
  {
    if items == [] then [] else [Item("", Compact(items[0].value))] + CompactItems(items[1..])
  }

  function CompactMembers(members: seq<Member>): (c: seq<Member>)
    ensures |c| == |members|
  {
    if members == [] then []
    else [Member("", members[0].key, "", Compact(members[0].value))] + CompactMembers(members[1..])
  }

  // ----- a value in front of the rest of its text, or of its tokens -----

  function TextOnto(j: Json, rest: string): string
    decreases j
  {
    match j
    case Atom(text) => text + rest
    case Str(raw) => "\"" + raw + "\"" + rest
    case Arr(items, close) => ['['] + ItemsTextOnto(items, true, close + ([']'] + rest))
    case Obj(members, close) => ['{'] + MembersTextOnto(members, true, close + (['}'] + rest))
  }

  function ItemsTextOnto(items: seq<Item>, first: bool, rest: string): string
    decreases items
  {
    if items == [] then rest
    else Separator(first) + (items[0].before + TextOnto(items[0].value, ItemsTextOnto(items[1..], false, rest)))
  }

  function MemberHeadOnto(m: Member, rest: string): string {
    m.before + ("\"" + m.key + "\"" + ([':'] + (m.after + rest)))
  }

  function MembersTextOnto(members: seq<Member>, first: bool, rest: string): string
    decreases members
  {
    if members == [] then rest
    else Separator(first) +
         MemberHeadOnto(members[0], TextOnto(members[0].value, MembersTextOnto(members[1..], false, rest)))
  }

  function ToksOnto(j: Json, rest: seq<Token>): seq<Token>
    decreases j
  {
    match j
    case Atom(text) => [AtomToken(text)] + rest
    case Str(raw) => [StrToken(raw)] + rest
    case Arr(items, _) => [LBracket] + ItemsToksOnto(items, true, [RBracket] + rest)
    case Obj(members, _) => [LBrace] + MembersToksOnto(members, true, [RBrace] + rest)
  }

  function SeparatorOnto(first: bool, rest: seq<Token>): seq<Token> {
    if first then rest else [Comma] + rest
  }

  function ItemsToksOnto(items: seq<Item>, first: bool, rest: seq<Token>): seq<Token>
    decreases items
  {
    if items == [] then rest
    else SeparatorOnto(first, ToksOnto(items[0].value, ItemsToksOnto(items[1..], false, rest)))
  }

  function MembersToksOnto(members: seq<Member>, first: bool, rest: seq<Token>): seq<Token>
    decreases members
  {
    if members == [] then rest
    else SeparatorOnto(first, [StrToken(members[0].key)] + ([Colon] +
           ToksOnto(members[0].value, MembersToksOnto(members[1..], false, rest))))
  }

  /** The tokens of a value. */
  function Toks(j: Json): seq<Token> {
    ToksOnto(j, [])
  }

  // ----- the two ways of writing a value out agree -----

  lemma Regroup(a: string, b: string, c: string, d: string, e: string)
    ensures a + b + c + d + e == a + (b + (c + (d + e)))
  {}

  lemma {:induction false} TextOntoText(j: Json, rest: string)
    ensures TextOnto(j, rest) == Text(j) + rest
    decreases j
  {
    match j
    case Atom(_) =>
    case Str(raw) =>
    case Arr(items, close) =>
      ItemsOntoText(items, true, close + ([']'] + rest));
      Regroup("[", ItemsText(items, true), close, "]", rest);
    case Obj(members, close) =>
      MembersOntoText(members, true, close + (['}'] + rest));
      Regroup("{", MembersText(members, true), close, "}", rest);
  }

  lemma {:induction false} ItemsOntoText(items: seq<Item>, first: bool, rest: string)
    ensures ItemsTextOnto(items, first, rest) == ItemsText(items, first) + rest
    decreases items
  {
    hide Text, TextOnto;
    if items == [] {
    } else {
      var more := ItemsText(items[1..], false);
      ItemsOntoText(items[1..], false, rest);
      TextOntoText(items[0].value, more + rest);
      Regroup(Separator(first), items[0].before, Text(items[0].value), more, rest);
    }
  }

  lemma MemberShape(m: Member, text: string, sep: string, more: string, rest: string)
    ensures sep + (m.before + "\"" + m.key + "\"" + ":" + m.after + text) + more + rest ==
            sep + MemberHeadOnto(m, text + (more + rest))
  {
    var k := "\"" + m.key + "\"";
    assert ":" == [':'];
    assert m.before + "\"" + m.key + "\"" == m.before + k;
    Regroup(m.before, k, ":", m.after, text + (more + rest));
    assert (m.before + k + ":" + m.after + text) + (more + rest) == m.before + k + ":" + m.after + (text + (more + rest));
  }

  lemma {:induction false} MembersOntoText(members: seq<Member>, first: bool, rest: string)
    ensures MembersTextOnto(members, first, rest) == MembersText(members, first) + rest
    decreases members
  {
    hide Text, TextOnto, MemberHeadOnto;
    if members == [] {
    } else {
      var more := MembersText(members[1..], false);
      MembersOntoText(members[1..], false, rest);
      TextOntoText(members[0].value, more + rest);
      MemberShape(members[0], Text(members[0].value), Separator(first), more, rest);
    }
  }

  // ----- lexing -----

  /** A value's tokens in front of the tokens of what follows, if that lexes. */
  function LexOnto(j: Json, rest: Option<seq<Token>>): Option<seq<Token>> {
    if rest.None? then None else Some(ToksOnto(j, rest.value))
  }

  /** The text of a value lexes to the value's tokens, whatever its layout. */
  lemma {:induction false} LexText(j: Json, rest: string)
    requires Well(j) && EndsAtom(rest)
    ensures Lex(TextOnto(j, rest)) == LexOnto(j, Lex(rest))
    decreases j
  {
    hide Lex, ValidAtom, RawOk, Unquote;
    match j
    case Atom(text) => LexAtom(text, rest);
    case Str(raw) => LexString(raw, rest);
    case Arr(items, close) =>
      var end := close + ([']'] + rest);
      LexPunctuation(']', rest);
      LexSpace(close, [']'] + rest);
      LexItems(items, true, end);
      LexPunctuation('[', ItemsTextOnto(items, true, end));
    case Obj(members, close) =>
      var end := close + (['}'] + rest);
      LexPunctuation('}', rest);
      LexSpace(close, ['}'] + rest);
      LexMembers(members, true, end);
      LexPunctuation('{', MembersTextOnto(members, true, end));
  }

  lemma LexSeparator(first: bool, rest: string)
    ensures Lex(Separator(first) + rest) ==
            if Lex(rest).None? then None else Some(SeparatorOnto(first, Lex(rest).value))
  {
    hide Lex;
    if first {
      assert "" + rest == rest;
    } else {
      assert "," == [','];
      LexPunctuation(',', rest);
    }
  }

  lemma {:induction false} LexItems(items: seq<Item>, first: bool, rest: string)
    requires WellItems(items) && EndsAtom(rest)
    ensures Lex(ItemsTextOnto(items, first, rest)) ==
            if Lex(rest).None? then None else Some(ItemsToksOnto(items, first, Lex(rest).value))
    decreases items
  {
    hide Lex, Well, TextOnto, ToksOnto, AllSpace;
    if items == [] {
    } else {
      var more := ItemsTextOnto(items[1..], false, rest);
      var text := TextOnto(items[0].value, more);
      LexItems(items[1..], false, rest);
      LexText(items[0].value, more);
      LexSpace(items[0].before, text);
      LexSeparator(first, items[0].before + text);
    }
  }

  lemma LexMemberHead(m: Member, rest: string)
    requires AllSpace(m.before) && AllSpace(m.after) && RawOk(m.key) && Unquote(m.key).Some?
    ensures Lex(MemberHeadOnto(m, rest)) ==
            if Lex(rest).None? then None else Some([StrToken(m.key)] + ([Colon] + Lex(rest).value))
  {
    hide Lex, RawOk, Unquote, AllSpace;
    LexSpace(m.before, "\"" + m.key + "\"" + ([':'] + (m.after + rest)));
    LexString(m.key, [':'] + (m.after + rest));
    LexPunctuation(':', m.after + rest);
    LexSpace(m.after, rest);
  }

  lemma {:induction false} LexMembers(members: seq<Member>, first: bool, rest: string)
    requires WellMembers(members) && EndsAtom(rest)
    ensures Lex(MembersTextOnto(members, first, rest)) ==
            if Lex(rest).None? then None else Some(MembersToksOnto(members, first, Lex(rest).value))
    decreases members
  {
    hide Lex, Well, RawOk, Unquote, TextOnto, ToksOnto, AllSpace, MemberHeadOnto;
    if members == [] {
    } else {
      var m := members[0];
      var more := MembersTextOnto(members[1..], false, rest);
      LexMembers(members[1..], false, rest);
      LexText(m.value, more);
      LexMemberHead(m, TextOnto(m.value, more));
      LexSeparator(first, MemberHeadOnto(m, TextOnto(m.value, more)));
    }
  }

  // ----- the reader -----

  function ParseValue(ts: seq<Token>): (r: Option<(Json, seq<Token>)>)
    ensures r.Some? ==> |r.value.1| < |ts|
    decreases |ts|, 0
  {
    if ts == [] then None else
      match ts[0]
      case AtomToken(text) => Some((Atom(text), ts[1..]))
      case StrToken(raw) => Some((Str(raw), ts[1..]))
      case LBracket =>
        if |ts| > 1 && ts[1] == RBracket then Some((Arr([], ""), ts[2..]))
        else
          var r := ParseItems(ts[1..]);
          if r.None? then None else Some((Arr(r.value.0, ""), r.value.1))
      case LBrace =>
        if |ts| > 1 && ts[1] == RBrace then Some((Obj([], ""), ts[2..]))
        else
          var r := ParseMembers(ts[1..]);
          if r.None? then None else Some((Obj(r.value.0, ""), r.value.1))
      case _ => None
  }

  /** One or more values with commas between them, up to the closing bracket. */
  function ParseItems(ts: seq<Token>): (r: Option<(seq<Item>, seq<Token>)>)
    ensures r.Some? ==> |r.value.1| < |ts|
    decreases |ts|, 1
  {
    var v := ParseValue(ts);
    if v.None? || v.value.1 == [] then None else
      var item, rest := Item("", v.value.0), v.value.1;
      if rest[0] == RBracket then Some(([item], rest[1..]))
      else if rest[0] != Comma then None
      else
        var more := ParseItems(rest[1..]);
        if more.None? then None else Some(([item] + more.value.0, more.value.1))
  }

  /** One or more members with commas between them, up to the closing brace. */
  function ParseMembers(ts: seq<Token>): (r: Option<(seq<Member>, seq<Token>)>)
    ensures r.Some? ==> |r.value.1| < |ts|
    decreases |ts|, 1
  {
    if |ts| < 2 || !ts[0].StrToken? || ts[1] != Colon then None else
      var v := ParseValue(ts[2..]);
      if v.None? || v.value.1 == [] then None else
        var member, rest := Member("", ts[0].raw, "", v.value.0), v.value.1;
        if rest[0] == RBrace then Some(([member], rest[1..]))
        else if rest[0] != Comma then None
        else
          var more := ParseMembers(rest[1..]);
          if more.None? then None else Some(([member] + more.value.0, more.value.1))
  }

  lemma ToksOntoHead(j: Json, rest: seq<Token>)
    ensures var ts := ToksOnto(j, rest); ts != [] && ts[0] !in {RBracket, RBrace, Comma, Colon}
  {}

  /** A value's tokens parse as that one value: brackets match and commas stand exactly between
      members. */
  lemma {:induction false} ParseToks(j: Json, rest: seq<Token>)
    ensures ParseValue(ToksOnto(j, rest)) == Some((Compact(j), rest))
    decreases j
  {
    match j
    case Atom(text) =>
    case Str(raw) =>
    case Arr(items, close) =>
      var end := [RBracket] + rest;
      if items == [] {
        assert ([LBracket] + end)[2..] == rest;
      } else {
        assert ([LBracket] + ItemsToksOnto(items, true, end))[1..] == ItemsToksOnto(items, true, end);
        ToksOntoHead(items[0].value, ItemsToksOnto(items[1..], false, end));
        ParseItemsToks(items, rest);
      }
    case Obj(members, close) =>
      var end := [RBrace] + rest;
      if members == [] {
        assert ([LBrace] + end)[2..] == rest;
      } else {
        assert ([LBrace] + MembersToksOnto(members, true, end))[1..] == MembersToksOnto(members, true, end);
        ParseMembersToks(members, rest);
      }
  }

  lemma {:induction false} ParseItemsToks(items: seq<Item>, rest: seq<Token>)
    requires items != []
    ensures ParseItems(ItemsToksOnto(items, true, [RBracket] + rest)) == Some((CompactItems(items), rest))
    decreases items
  {
    hide ToksOnto, Compact;
    var v, more, end := items[0].value, items[1..], [RBracket] + rest;
    ParseToks(v, ItemsToksOnto(more, false, end));
    if more == [] {
      assert end[1..] == rest;
      assert [Item("", Compact(v))] + CompactItems(more) == [Item("", Compact(v))];
    } else {
      assert ItemsToksOnto(more, false, end) == [Comma] + ItemsToksOnto(more, true, end);
      assert ([Comma] + ItemsToksOnto(more, true, end))[1..] == ItemsToksOnto(more, true, end);
      ParseItemsToks(more, rest);
    }
  }

  lemma {:induction false} ParseMembersToks(members: seq<Member>, rest: seq<Token>)
    requires members != []
    ensures ParseMembers(MembersToksOnto(members, true, [RBrace] + rest)) == Some((CompactMembers(members), rest))
    decreases members
  {
    hide ToksOnto, Compact;
    var m, more, end := members[0], members[1..], [RBrace] + rest;
    var tail := ToksOnto(m.value, MembersToksOnto(more, false, end));
    assert ([StrToken(m.key)] + ([Colon] + tail))[2..] == tail;
    ParseToks(m.value, MembersToksOnto(more, false, end));
    if more == [] {
      assert end[1..] == rest;
      assert [Member("", m.key, "", Compact(m.value))] + CompactMembers(more) == [Member("", m.key, "", Compact(m.value))];
    } else {
      assert MembersToksOnto(more, false, end) == [Comma] + MembersToksOnto(more, true, end);
      assert ([Comma] + MembersToksOnto(more, true, end))[1..] == MembersToksOnto(more, true, end);
      ParseMembersToks(more, rest);
    }
  }

  /** Reads the first value of a text. */
  function Read(text: string): Option<Json> {
    var ts := Lex(text);
    if ts.None? || ParseValue(ts.value).None? then None else Some(ParseValue(ts.value).value.0)
  }

  /** Reading undoes writing, up to white space. */
  lemma ReadText(j: Json)
    requires Well(j)
    ensures Lex(Text(j)) == Some(Toks(j))
    ensures Read(Text(j)) == Some(Compact(j))
  {
    hide Lex, ParseValue, Well;
    LexText(j, "");
    LexNothing();
    TextOntoText(j, "");
    assert Text(j) + "" == Text(j);
    ParseToks(j, []);
  }

  lemma LexNothing()
    ensures Lex("") == Some([])
  {}
}
