/** The duplicate-key walks over a stream of JSON tokens, as four files of the repository write them. */
module JsonWalk {
  import opened Wrappers
  import opened Text

  datatype Json = Scalar(text: string) | Text(value: string) | Array(items: seq<Json>) | Object(members: seq<Member>)
  datatype Member = Member(name: string, value: Json)

  datatype Token = Delim(c: char) | Name(s: string) | Literal(text: string)

  /** The tokens of a value, as json.Decoder hands them out. */
  function Tokens(v: Json): seq<Token> {
    match v
    case Scalar(text) => [Literal(text)]
    case Text(s) => [Name(s)]
    case Array(items) => [Delim('[')] + ItemTokens(items) + [Delim(']')]
    case Object(members) => [Delim('{')] + MemberTokens(members) + [Delim('}')]
  }

  function ItemTokens(items: seq<Json>): seq<Token> {
    if items == [] then [] else Tokens(items[0]) + ItemTokens(items[1..])
  }

  function MemberTokens(members: seq<Member>): seq<Token> {
    if members == [] then [] else [Name(members[0].name)] + Tokens(members[0].value) + MemberTokens(members[1..])
  }

  /** No object at any depth repeats a name (section 4 of RFC 8259). */
  ghost predicate NamesDistinct(v: Json) {
    match v
    case Array(items) => forall item | item in items :: NamesDistinct(item)
    case Object(members) =>
      && (forall i, j | 0 <= i < j < |members| :: members[i].name != members[j].name)
      && (forall m | m in members :: NamesDistinct(m.value))
    case _ => true
  }

  // ---- The walks, on the tokens that are left ----

  predicate More(rest: seq<Token>) {
    rest != [] && rest[0] != Delim(']') && rest[0] != Delim('}')
  }

  function Close(rest: seq<Token>, c: char): Option<seq<Token>> {
    if rest != [] && rest[0] == Delim(c) then Some(rest[1..]) else None
  }

  /** The walk with a case for objects and a case for arrays; the result is what it leaves unread. */
  function Walk(rest: seq<Token>): (left: Option<seq<Token>>)
    ensures left.Some? ==> |left.value| < |rest|
    decreases |rest|, 1
  {
    if rest == [] then None
    else match rest[0]
      case Delim(c) =>
        if c == '{' then WalkMembers(rest[1..], {}) else if c == '[' then WalkItems(rest[1..]) else None
      case _ => Some(rest[1..])
  }

  function WalkMembers(rest: seq<Token>, seen: set<string>): (left: Option<seq<Token>>)
    ensures left.Some? ==> |left.value| <= |rest|
    decreases |rest|, 0
  {
    if !More(rest) then Close(rest, '}')
    else if !rest[0].Name? || rest[0].s in seen then None
    else
      var value := Walk(rest[1..]);
      if value.None? then None else WalkMembers(value.value, seen + {rest[0].s})
  }

  function WalkItems(rest: seq<Token>): (left: Option<seq<Token>>)
    ensures left.Some? ==> |left.value| <= |rest|
    decreases |rest|, 2
  {
    if !More(rest) then Close(rest, ']')
    else
      var value := Walk(rest);
      if value.None? then None else WalkItems(value.value)
  }

  /** The middleware's walk: one loop for both kinds, reading a name first when inside an object. */
  function MergedWalk(rest: seq<Token>): (left: Option<seq<Token>>)
    ensures left.Some? ==> |left.value| < |rest|
    decreases |rest|, 1
  {
    if rest == [] then None
    else match rest[0]
      case Delim(c) => if c == '{' || c == '[' then MergedBody(rest[1..], c, {}) else None
      case _ => Some(rest[1..])
  }

  function MergedBody(rest: seq<Token>, delimiter: char, seen: set<string>): (left: Option<seq<Token>>)
    ensures left.Some? ==> |left.value| <= |rest|
    decreases |rest|, 2
  {
    if !More(rest) then Close(rest, if delimiter == '{' then '}' else ']')
    else if delimiter == '{' && (!rest[0].Name? || rest[0].s in seen) then None
    else
      var value := MergedWalk(if delimiter == '{' then rest[1..] else rest);
      if value.None? then None else MergedBody(value.value, delimiter, if delimiter == '{' then seen + {rest[0].s} else seen)
  }

  /** rejectDuplicateJSONKeys answers nil: the walk succeeds and nothing trails. */
  predicate Passes(stream: seq<Token>) {
    Walk(stream) == Some([])
  }

  predicate MergedPasses(stream: seq<Token>) {
    MergedWalk(stream) == Some([])
  }

  /** A decoder positioned in a stream; every Token call moves it. */
  class Decoder {
    var rest: seq<Token>

    constructor (stream: seq<Token>)
      ensures rest == stream
    {
      rest := stream;
    }

    method Next() returns (token: Option<Token>)
      modifies this
      ensures old(rest) == [] ==> token == None && rest == []
      ensures old(rest) != [] ==> token == Some(old(rest)[0]) && rest == old(rest)[1..]
    {
      if rest == [] {
        return None;
      }
      token := Some(rest[0]);
      rest := rest[1..];
    }

    /** The closing delimiter the decoder's own state expects. */
    method ReadClose(c: char) returns (ok: bool)
      modifies this
      ensures ok <==> Close(old(rest), c).Some?
      ensures ok ==> rest == Close(old(rest), c).value
    {
      var token := Next();
      ok := token == Some(Delim(c));
    }

    method WalkValue() returns (ok: bool)
      modifies this
      ensures ok <==> Walk(old(rest)).Some?
      ensures ok ==> rest == Walk(old(rest)).value
      decreases |rest|
    {
      var token := Next();
      if token.None? {
        return false;
      }
      if !token.value.Delim? {
        return true;
      }
      if token.value.c == '{' {
        var seen: set<string> := {};
        while More(rest)
          invariant |rest| < |old(rest)|
          invariant Walk(old(rest)) == WalkMembers(rest, seen)
          decreases |rest|
        {
          var key := Next();
          if !key.value.Name? || key.value.s in seen {
            return false;
          }
          seen := seen + {key.value.s};
          var inner := WalkValue();
          if !inner {
            return false;
          }
        }
        ok := ReadClose('}');
      } else if token.value.c == '[' {
        while More(rest)
          invariant |rest| < |old(rest)|
          invariant Walk(old(rest)) == WalkItems(rest)
          decreases |rest|
        {
          var inner := WalkValue();
          if !inner {
            return false;
          }
        }
        ok := ReadClose(']');
      } else {
        ok := false;
      }
    }

    method WalkMerged() returns (ok: bool)
      modifies this
      ensures ok <==> MergedWalk(old(rest)).Some?
      ensures ok ==> rest == MergedWalk(old(rest)).value
      decreases |rest|
    {
      var token := Next();
      if token.None? {
        return false;
      }
      if !token.value.Delim? {
        return true;
      }
      var delimiter := token.value.c;
      if delimiter != '{' && delimiter != '[' {
        return false;
      }
      var seen: set<string> := {};
      while More(rest)
        invariant |rest| < |old(rest)|
        invariant MergedWalk(old(rest)) == MergedBody(rest, delimiter, seen)
        decreases |rest|
      {
        if delimiter == '{' {
          var key := Next();
          if !key.value.Name? || key.value.s in seen {
            return false;
          }
          seen := seen + {key.value.s};
        }
        var inner := WalkMerged();
        if !inner {
          return false;
        }
      }
      ok := ReadClose(if delimiter == '{' then '}' else ']');
    }
  }

  method RejectDuplicateKeys(stream: seq<Token>) returns (ok: bool)
    ensures ok == Passes(stream)
  {
    var decoder := new Decoder(stream);
    ok := decoder.WalkValue();
    if ok {
      var token := decoder.Next();
      ok := token.None?;
    }
  }

  method RejectDuplicateKeysMerged(stream: seq<Token>) returns (ok: bool)
    ensures ok == MergedPasses(stream)
  {
    var decoder := new Decoder(stream);
    ok := decoder.WalkMerged();
    if ok {
      var token := decoder.Next();
      ok := token.None?;
    }
  }

  // ---- What the walks decide ----

  /** Names of the members are distinct and none was seen before. */
  ghost predicate MembersDistinct(members: seq<Member>, seen: set<string>) {
    && (forall i, j | 0 <= i < j < |members| :: members[i].name != members[j].name)
    && (forall m | m in members :: m.name !in seen && NamesDistinct(m.value))
  }

  lemma FirstToken(v: Json)
    ensures Tokens(v) != [] && More(Tokens(v))
  {
  }

  /** An opening delimiter enters the loop of its kind. */
  lemma WalkOpens(inner: seq<Token>)
    ensures Walk([Delim('[')] + inner) == WalkItems(inner)
    ensures Walk([Delim('{')] + inner) == WalkMembers(inner, {})
  {
    assert ([Delim('[')] + inner)[1..] == inner;
    assert ([Delim('{')] + inner)[1..] == inner;
  }

  lemma Regroup(a: seq<Token>, b: seq<Token>, c: seq<Token>, d: seq<Token>)
    ensures a + b + c + d == a + (b + (c + d))
  {
  }

  /** One turn of the loop over members. */
  lemma WalkMember(name: string, inner: seq<Token>, seen: set<string>)
    ensures WalkMembers([Name(name)] + inner, seen)
            == if name in seen || Walk(inner).None? then None else WalkMembers(Walk(inner).value, seen + {name})
  {
    assert ([Name(name)] + inner)[1..] == inner;
  }

  /** On the tokens of a value the walk reads exactly that value, or refuses it for a repeated name. */
  lemma {:induction false} WalkReadsValue(v: Json, after: seq<Token>)
    ensures Walk(Tokens(v) + after) == if NamesDistinct(v) then Some(after) else None
    decreases v, 1
  {
    match v {
      case Array(items) =>
        var inner := ItemTokens(items) + ([Delim(']')] + after);
        assert Tokens(v) + after == [Delim('[')] + inner;
        WalkOpens(inner);
        WalkReadsItems(items, after);
      case Object(members) =>
        var inner := MemberTokens(members) + ([Delim('}')] + after);
        assert Tokens(v) + after == [Delim('{')] + inner;
        WalkOpens(inner);
        WalkReadsMembers(members, {}, after);
        assert NamesDistinct(v) <==> MembersDistinct(members, {});
      case Scalar(text) =>
        assert ([Literal(text)] + after)[1..] == after;
      case Text(s) =>
        assert ([Name(s)] + after)[1..] == after;
    }
  }

  lemma {:induction false} WalkReadsItems(items: seq<Json>, after: seq<Token>)
    ensures WalkItems(ItemTokens(items) + ([Delim(']')] + after))
            == if forall item | item in items :: NamesDistinct(item) then Some(after) else None
    decreases items, 0
  {
    var close := [Delim(']')] + after;
    if items == [] {
      assert [] + close == close && close[1..] == after;
    } else {
      var tail := ItemTokens(items[1..]) + close;
      Regroup([], Tokens(items[0]), ItemTokens(items[1..]), close);
      assert [] + Tokens(items[0]) == Tokens(items[0]) && [] + (Tokens(items[0]) + tail) == Tokens(items[0]) + tail;
      FirstToken(items[0]);
      assert More(Tokens(items[0]) + tail);
      WalkReadsValue(items[0], tail);
      WalkReadsItems(items[1..], after);
      assert forall item :: item in items <==> item == items[0] || item in items[1..];
    }
  }

  lemma {:induction false} WalkReadsMembers(members: seq<Member>, seen: set<string>, after: seq<Token>)
    ensures WalkMembers(MemberTokens(members) + ([Delim('}')] + after), seen)
            == if MembersDistinct(members, seen) then Some(after) else None
    decreases members, 0
  {
    var close := [Delim('}')] + after;
    if members == [] {
      assert [] + close == close && close[1..] == after;
    } else {
      var m, others := members[0], members[1..];
      var tail := MemberTokens(others) + close;
      Regroup([Name(m.name)], Tokens(m.value), MemberTokens(others), close);
      WalkMember(m.name, Tokens(m.value) + tail, seen);
      WalkReadsValue(m.value, tail);
      WalkReadsMembers(others, seen + {m.name}, after);
      DistinctSplit(members, seen);
    }
  }

  lemma DistinctSplit(members: seq<Member>, seen: set<string>)
    requires members != []
    ensures MembersDistinct(members, seen)
            <==> members[0].name !in seen && NamesDistinct(members[0].value) && MembersDistinct(members[1..], seen + {members[0].name})
  {
    var m, others := members[0], members[1..];
    assert forall x :: x in members <==> x == m || x in others;
    if MembersDistinct(members, seen) {
      forall i, j | 0 <= i < j < |others| ensures others[i].name != others[j].name {
        assert members[i + 1].name != members[j + 1].name;
      }
      forall x | x in others ensures x.name != m.name {
        var i :| 0 <= i < |others| && others[i] == x;
        assert members[0].name != members[i + 1].name;
      }
    }
    if m.name !in seen && NamesDistinct(m.value) && MembersDistinct(others, seen + {m.name}) {
      forall i, j | 0 <= i < j < |members| ensures members[i].name != members[j].name {
        if i == 0 {
          assert members[j] == others[j - 1] && others[j - 1] in others;
        } else {
          assert members[i] == others[i - 1] && members[j] == others[j - 1];
        }
      }
    }
  }

  /** The two ways of writing the walk decide every stream alike and leave the same tokens unread. */
  lemma {:induction false} MergedWalkAgrees(rest: seq<Token>)
    ensures MergedWalk(rest) == Walk(rest)
    decreases |rest|, 1
  {
    if rest != [] {
      MergedMembersAgree(rest[1..], {});
      MergedItemsAgree(rest[1..]);
    }
  }

  lemma {:induction false} MergedMembersAgree(rest: seq<Token>, seen: set<string>)
    ensures MergedBody(rest, '{', seen) == WalkMembers(rest, seen)
    decreases |rest|, 0
  {
    if More(rest) && rest[0].Name? && rest[0].s !in seen {
      MergedWalkAgrees(rest[1..]);
      if Walk(rest[1..]).Some? {
        MergedMembersAgree(Walk(rest[1..]).value, seen + {rest[0].s});
      }
    }
  }

  lemma {:induction false} MergedItemsAgree(rest: seq<Token>)
    ensures MergedBody(rest, '[', {}) == WalkItems(rest)
    decreases |rest|, 2
  {
    if More(rest) {
      MergedWalkAgrees(rest);
      if Walk(rest).Some? {
        MergedItemsAgree(Walk(rest).value);
      }
    }
  }

  /** A successful walk has read the tokens of a value without repeated names. */
  lemma {:induction false} BuildValue(rest: seq<Token>) returns (v: Json)
    requires Walk(rest).Some?
    ensures rest == Tokens(v) + Walk(rest).value && NamesDistinct(v)
    decreases |rest|, 1
  {
    var first, inner := rest[0], rest[1..];
    assert rest == [first] + inner;
    match first {
      case Delim(c) =>
        if c == '[' {
          var items := BuildItems(inner);
          v := Array(items);
          Regroup([first], ItemTokens(items), [Delim(']')], Walk(rest).value);
        } else {
          var members := BuildMembers(inner, {});
          v := Object(members);
          Regroup([first], MemberTokens(members), [Delim('}')], Walk(rest).value);
        }
      case Name(s) => v := Text(s);
      case Literal(text) => v := Scalar(text);
    }
  }

  lemma {:induction false} BuildItems(rest: seq<Token>) returns (items: seq<Json>)
    requires WalkItems(rest).Some?
    ensures rest == ItemTokens(items) + ([Delim(']')] + WalkItems(rest).value)
    ensures forall item | item in items :: NamesDistinct(item)
    decreases |rest|, 2
  {
    if More(rest) {
      var item := BuildValue(rest);
      var others := BuildItems(Walk(rest).value);
      items := [item] + others;
      assert items[1..] == others;
      Regroup([], Tokens(item), ItemTokens(others), [Delim(']')] + WalkItems(rest).value);
      assert [] + Tokens(item) == Tokens(item);
    } else {
      items := [];
      assert rest == [] + ([Delim(']')] + rest[1..]);
    }
  }

  lemma {:induction false} BuildMembers(rest: seq<Token>, seen: set<string>) returns (members: seq<Member>)
    requires WalkMembers(rest, seen).Some?
    ensures rest == MemberTokens(members) + ([Delim('}')] + WalkMembers(rest, seen).value) && MembersDistinct(members, seen)
    decreases |rest|, 0
  {
    if More(rest) {
      var name, inner := rest[0].s, rest[1..];
      assert rest == [Name(name)] + inner;
      var value := BuildValue(inner);
      var others := BuildMembers(Walk(inner).value, seen + {name});
      members := [Member(name, value)] + others;
      assert members[1..] == others;
      DistinctSplit(members, seen);
      Regroup([Name(name)], Tokens(value), MemberTokens(others), [Delim('}')] + WalkMembers(rest, seen).value);
    } else {
      members := [];
      assert rest == [] + ([Delim('}')] + rest[1..]);
    }
  }

  /** After a value anything further fails, and so does the value itself if it repeats a name. */
  lemma ValuePasses(v: Json, trailing: seq<Token>)
    ensures Passes(Tokens(v) + trailing) <==> NamesDistinct(v) && trailing == []
    ensures MergedPasses(Tokens(v) + trailing) <==> NamesDistinct(v) && trailing == []
  {
    WalkReadsValue(v, trailing);
    MergedWalkAgrees(Tokens(v) + trailing);
  }

  /** A body passes exactly when it is one value, no object in it repeats a name, and nothing trails; for the merged
      walk alike. */
  lemma PassesExactly(stream: seq<Token>)
    ensures Passes(stream) <==> exists v :: stream == Tokens(v) && NamesDistinct(v)
    ensures MergedPasses(stream) <==> Passes(stream)
  {
    MergedWalkAgrees(stream);
    if Passes(stream) {
      var v := BuildValue(stream);
      assert stream == Tokens(v) + [] == Tokens(v);
    }
    if v :| stream == Tokens(v) && NamesDistinct(v) {
      ValuePasses(v, []);
      assert Tokens(v) + [] == Tokens(v);
    }
  }
}
