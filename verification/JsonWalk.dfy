/** The walk that refuses license documents in which some object repeats a key. It reads
    tokens, not a tree, so it must notice where each value ends while it looks for repeats. */
module JsonWalk {
  import opened Prelude

  /** JSON texts (section 2 of RFC 8259). Numbers, booleans and null are `Plain`. */
  datatype Json = Plain | Text(text: string) | List(items: seq<Json>) | Object(members: seq<Member>)
  datatype Member = Member(key: string, value: Json)

  datatype Token = Open(brace: bool) | Close(brace: bool) | Word(text: string) | Other

  // ----- the tokens of a text

  function Tokens(v: Json): seq<Token>
    decreases v
  {
    match v
    case Plain => [Other]
    case Text(text) => [Word(text)]
    case List(items) => [Open(false)] + ItemTokens(items) + [Close(false)]
    case Object(members) => [Open(true)] + MemberTokens(members) + [Close(true)]
  }

  function ItemTokens(items: seq<Json>): seq<Token>
    decreases items
  {
    if items == [] then [] else Tokens(items[0]) + ItemTokens(items[1..])
  }

  function MemberTokens(members: seq<Member>): seq<Token>
    decreases members
  {
    if members == [] then [] else [Word(members[0].key)] + Tokens(members[0].value) + MemberTokens(members[1..])
  }

  // ----- what it means to repeat a key

  /** The value reached from `v` by taking the item or member with each index in turn. */
  function At(v: Json, path: seq<nat>): Option<Json>
    decreases |path|
  {
    if path == [] then Some(v)
    else if v.List? && path[0] < |v.items| then At(v.items[path[0]], path[1..])
    else if v.Object? && path[0] < |v.members| then At(v.members[path[0]].value, path[1..])
    else None
  }

  ghost predicate RepeatsKey(v: Json) {
    v.Object? && exists i, j :: 0 <= i < j < |v.members| && v.members[i].key == v.members[j].key
  }

  /** Some object at some depth has two members with equal keys. */
  ghost predicate RepeatsKeyAt(v: Json, path: seq<nat>) {
    At(v, path).Some? && RepeatsKey(At(v, path).value)
  }

  // ----- the order in which the walk finds repeats

  predicate Found(v: Json)
    decreases v
  {
    match v
    case List(items) => FoundInItems(items)
    case Object(members) => FoundInMembers(members, {})
    case _ => false
  }

  predicate FoundInItems(items: seq<Json>)
    decreases items
  {
    items != [] && (Found(items[0]) || FoundInItems(items[1..]))
  }

  predicate FoundInMembers(members: seq<Member>, seen: set<string>)
    decreases members
  {
    members != [] &&
    (members[0].key in seen || Found(members[0].value) || FoundInMembers(members[1..], seen + {members[0].key}))
  }

  lemma {:induction false} FoundInItemsIff(items: seq<Json>)
    ensures FoundInItems(items) <==> exists i :: 0 <= i < |items| && Found(items[i])
  {
    if items != [] {
      FoundInItemsIff(items[1..]);
      assert forall i :: 1 <= i < |items| ==> items[i] == items[1..][i - 1];
      if i :| 1 <= i < |items| && Found(items[i]) { assert Found(items[1..][i - 1]); }
    }
  }

  ghost predicate Repeated(members: seq<Member>, seen: set<string>) {
    || (exists i :: 0 <= i < |members| && members[i].key in seen)
    || (exists i, j :: 0 <= i < j < |members| && members[i].key == members[j].key)
  }

  lemma {:induction false} FoundInMembersIff(members: seq<Member>, seen: set<string>)
    ensures FoundInMembers(members, seen) <==>
      Repeated(members, seen) || exists i :: 0 <= i < |members| && Found(members[i].value)
  {
    if members != [] {
      var key, rest := members[0].key, members[1..];
      FoundInMembersIff(rest, seen + {key});
      RepeatedStep(members, seen);
      assert forall i :: 1 <= i < |members| ==> members[i] == rest[i - 1];
      if i :| 1 <= i < |members| && Found(members[i].value) { assert Found(rest[i - 1].value); }
    }
  }

  lemma RepeatedStep(members: seq<Member>, seen: set<string>)
    requires members != []
    ensures Repeated(members, seen) <==> members[0].key in seen || Repeated(members[1..], seen + {members[0].key})
  {
    var key, rest := members[0].key, members[1..];
    assert forall i :: 0 <= i < |rest| ==> rest[i] == members[i + 1];
    assert forall i :: 1 <= i < |members| ==> members[i] == rest[i - 1];
    if Repeated(members, seen) && key !in seen {
      if i :| 0 <= i < |members| && members[i].key in seen {
        assert rest[i - 1].key in seen + {key};
      } else {
        var i, j :| 0 <= i < j < |members| && members[i].key == members[j].key;
        if i == 0 { assert rest[j - 1].key in seen + {key}; } else { assert rest[i - 1].key == rest[j - 1].key; }
      }
    }
  }

  /** The child of `v` with index `i`. */
  ghost predicate Child(v: Json, i: nat, c: Json) {
    (v.List? && i < |v.items| && c == v.items[i]) || (v.Object? && i < |v.members| && c == v.members[i].value)
  }

  lemma FoundIff(v: Json)
    ensures Found(v) <==> RepeatsKey(v) || exists i: nat, c :: Child(v, i, c) && Found(c)
  {
    match v
    case List(items) =>
      FoundInItemsIff(items);
      if i :| 0 <= i < |items| && Found(items[i]) { assert Child(v, i, items[i]); }
    case Object(members) =>
      FoundInMembersIff(members, {});
      assert Repeated(members, {}) <==> RepeatsKey(v);
      if i :| 0 <= i < |members| && Found(members[i].value) { assert Child(v, i, members[i].value); }
    case _ =>
  }

  lemma {:induction false} FoundSomewhere(v: Json)
    requires Found(v)
    ensures exists path :: RepeatsKeyAt(v, path)
    decreases v
  {
    FoundIff(v);
    if RepeatsKey(v) {
      assert RepeatsKeyAt(v, []);
    } else {
      var i: nat, c :| Child(v, i, c) && Found(c);
      FoundSomewhere(c);
      var path :| RepeatsKeyAt(c, path);
      assert ([i] + path)[1..] == path;
      assert RepeatsKeyAt(v, [i] + path);
    }
  }

  lemma {:induction false} RepeatIsFound(v: Json, path: seq<nat>)
    requires RepeatsKeyAt(v, path)
    ensures Found(v)
    decreases |path|
  {
    FoundIff(v);
    if path != [] {
      var c := if v.List? then v.items[path[0]] else v.members[path[0]].value;
      RepeatIsFound(c, path[1..]);
      assert Child(v, path[0], c);
    }
  }

  /** Main result. The walk finds something if and only if some object, at some depth,
      has two members with equal keys. */
  lemma FoundIffSomeObjectRepeats(v: Json)
    ensures Found(v) <==> exists path :: RepeatsKeyAt(v, path)
  {
    if Found(v) { FoundSomewhere(v); }
    if path :| RepeatsKeyAt(v, path) { RepeatIsFound(v, path); }
  }

  /** Where the members of an object are ahead, its closing brace is next, or a key, its
      value and the remaining members are. */
  lemma {:induction false} MembersAhead(stream: seq<Token>, pos: nat, members: seq<Member>)
    requires pos <= |stream| && MemberTokens(members) + [Close(true)] <= stream[pos..]
    ensures pos < |stream|
    ensures members == [] ==> stream[pos] == Close(true)
    ensures members != [] ==>
      var after := pos + 1 + |Tokens(members[0].value)|;
      && after <= |stream|
      && stream[pos] == Word(members[0].key)
      && Tokens(members[0].value) <= stream[pos + 1..]
      && MemberTokens(members[1..]) + [Close(true)] <= stream[after..]
  {
    if members != [] {
      var value, rest := Tokens(members[0].value), MemberTokens(members[1..]) + [Close(true)];
      assert MemberTokens(members) + [Close(true)] == [Word(members[0].key)] + (value + rest);
      Cut(stream, pos, [Word(members[0].key)], value + rest);
      Cut(stream, pos + 1, value, rest);
    }
  }

  lemma {:induction false} Cut(stream: seq<Token>, pos: nat, a: seq<Token>, b: seq<Token>)
    requires pos <= |stream| && a + b <= stream[pos..]
    ensures a <= stream[pos..] && pos + |a| <= |stream| && b <= stream[pos + |a|..]
  {
    assert stream[pos..][..|a|] == (a + b)[..|a|] == a;
    assert stream[pos + |a|..][..|b|] == (a + b)[|a|..] == b;
  }

  // ----- the walk

  class Decoder {
    const tokens: seq<Token>
    var pos: nat

    ghost predicate Valid() reads this { pos <= |tokens| }

    constructor (tokens: seq<Token>)
      ensures Valid() && pos == 0 && this.tokens == tokens
    {
      this.tokens, pos := tokens, 0;
    }

    /** The unread part of the stream begins with `expected`. */
    ghost predicate Ahead(expected: seq<Token>)
      requires Valid()
      reads this
    {
      expected <= tokens[pos..]
    }

    method Next() returns (t: Option<Token>)
      requires Valid()
      modifies this
      ensures Valid()
      ensures t == if old(pos) < |tokens| then Some(tokens[old(pos)]) else None
      ensures pos == if old(pos) < |tokens| then old(pos) + 1 else old(pos)
    {
      if pos == |tokens| { return None; }
      t, pos := Some(tokens[pos]), pos + 1;
    }

    predicate More()
      requires Valid()
      reads this
    {
      pos < |tokens| && !tokens[pos].Close?
    }

    /** walk. Where the stream goes on with the tokens of `v`, the answer is whether `v`
        repeats a key somewhere, and an answer of no has read exactly those tokens. */
    method Walk(ghost v: Json) returns (repeats: bool)
      requires Valid()
      modifies this
      ensures Valid() && (old(pos) < |tokens| ==> pos > old(pos)) && pos >= old(pos)
      ensures old(Ahead(Tokens(v))) ==> repeats == Found(v) && (!repeats ==> pos == old(pos) + |Tokens(v)|)
      decreases |tokens| - pos, 0
    {
      ghost var known := Ahead(Tokens(v));
      var token := Next();
      if token.None? { return false; }
      if token.value.Open? {
        if token.value.brace {
          repeats := WalkMembers(known, if known then v.members else []);
        } else {
          repeats := WalkItems(known, if known then v.items else []);
        }
      } else {
        repeats := false;
      }
    }

    /** The arm of walk for an object, after its opening brace. */
    method WalkMembers(ghost known: bool, ghost members: seq<Member>) returns (repeats: bool)
      requires Valid()
      requires known ==> Ahead(MemberTokens(members) + [Close(true)])
      modifies this
      ensures Valid() && pos >= old(pos)
      ensures known ==> repeats == FoundInMembers(members, {})
      ensures known && !repeats ==> pos == old(pos) + |MemberTokens(members)| + 1
      decreases |tokens| - pos, 1
    {
      ghost var rest := members;
      var seen: set<string> := {};
      while More()
        invariant Valid() && old(pos) <= pos
        invariant known ==> Ahead(MemberTokens(rest) + [Close(true)])
        invariant known ==> pos + |MemberTokens(rest)| == old(pos) + |MemberTokens(members)|
        invariant known ==> FoundInMembers(members, {}) == FoundInMembers(rest, seen)
        decreases |tokens| - pos
      {
        if known { MembersAhead(tokens, pos, rest); }
        var key := Next();
        if !key.value.Word? { return false; }
        if key.value.text in seen { return true; }
        seen := seen + {key.value.text};
        var inner := Walk(if known then rest[0].value else Plain);
        if inner { return true; }
        rest := if known then rest[1..] else rest;
      }
      if known { MembersAhead(tokens, pos, rest); }
      var _ := Next();
      repeats := false;
    }

    /** The arm of walk for an array, after its opening bracket. */
    method WalkItems(ghost known: bool, ghost items: seq<Json>) returns (repeats: bool)
      requires Valid()
      requires known ==> Ahead(ItemTokens(items) + [Close(false)])
      modifies this
      ensures Valid() && pos >= old(pos)
      ensures known ==> repeats == FoundInItems(items)
      ensures known && !repeats ==> pos == old(pos) + |ItemTokens(items)| + 1
      decreases |tokens| - pos, 1
    {
      ghost var rest := items;
      while More()
        invariant Valid() && old(pos) <= pos
        invariant known ==> Ahead(ItemTokens(rest) + [Close(false)])
        invariant known ==> pos + |ItemTokens(rest)| == old(pos) + |ItemTokens(items)|
        invariant known ==> FoundInItems(items) == FoundInItems(rest)
        decreases |tokens| - pos
      {
        var inner := Walk(if known then rest[0] else Plain);
        if inner { return true; }
        rest := if known then rest[1..] else rest;
      }
      var _ := Next();
      repeats := false;
    }
  }

  /** hasDuplicateJSONKeys on the tokens of a whole document. */
  method HasDuplicateKeys(ghost v: Json, tokens: seq<Token>) returns (repeats: bool)
    requires tokens == Tokens(v)
    ensures repeats <==> exists path :: RepeatsKeyAt(v, path)
  {
    var decoder := new Decoder(tokens);
    repeats := decoder.Walk(v);
    FoundIffSomeObjectRepeats(v);
  }
}
