/** The entries of a map field: what any number of them decode to, and exactly when their order matters
    (`Common/jsonpb/decode.go`). */
module MapEntries {
  import opened Decode
  import opened JsonText
  import opened ProtoSchema
  import opened ReaderFields
  import opened Results

  /** Both fail, or both give the same. */
  predicate SameResult<T(==)>(r: Result<T, DecodeError>, r': Result<T, DecodeError>) {
    if r.Ok? then r' == r else r'.Err?
  }

  lemma ResultSwap<T>(r: Result<T, DecodeError>, r': Result<T, DecodeError>)
    requires SameResult(r, r')
    ensures SameResult(r', r)
  {}

  function EntryKey(key: Kind, m: Member): Result<MapKey, DecodeError>
    requires Unquote(m.key).Some?
  {
    DecodeKey(key, Unquote(m.key).value)
  }

  predicate EntryDecodes(sc: Schema, allow: bool, key: Kind, kind: Kind, m: Member)
    requires Unquote(m.key).Some?
  {
    EntryKey(key, m).Ok? && DecodeSingular(sc, allow, kind, m.value).Ok?
  }

  ghost predicate AllDecode(sc: Schema, allow: bool, key: Kind, kind: Kind, members: seq<Member>)
    requires KeysOk(members)
  {
    forall i :: 0 <= i < |members| ==> EntryDecodes(sc, allow, key, kind, members[i])
  }

  /** Two entries that decode to one key and to different values. */
  predicate Clash(sc: Schema, allow: bool, key: Kind, kind: Kind, m: Member, m': Member)
    requires Unquote(m.key).Some? && Unquote(m'.key).Some?
  {
    && EntryDecodes(sc, allow, key, kind, m) && EntryDecodes(sc, allow, key, kind, m')
    && EntryKey(key, m) == EntryKey(key, m')
    && DecodeSingular(sc, allow, kind, m.value) != DecodeSingular(sc, allow, kind, m'.value)
  }

  /** Names that are spellings of one key have equal values. */
  ghost predicate SpellingsAgree(sc: Schema, allow: bool, key: Kind, kind: Kind, members: seq<Member>)
    requires KeysOk(members)
  {
    forall i, k :: 0 <= i < k < |members| ==> !Clash(sc, allow, key, kind, members[i], members[k])
  }

  /** The condition under which the order of the entries does not matter. */
  ghost predicate Orderless(sc: Schema, allow: bool, key: Kind, kind: Kind, members: seq<Member>)
    requires KeysOk(members)
  {
    AllDecode(sc, allow, key, kind, members) ==> SpellingsAgree(sc, allow, key, kind, members)
  }

  // ----- what the entries decode to -----

  /** Entry by entry: all keys and values decode, and the map holds exactly what they decode to. */
  ghost predicate EntriesAre(sc: Schema, allow: bool, key: Kind, kind: Kind, members: seq<Member>,
                             r: Result<map<MapKey, Value>, DecodeError>)
    requires KeysOk(members)
  {
    && (r.Ok? <==> AllDecode(sc, allow, key, kind, members))
    && (r.Ok? ==>
          && (forall i :: 0 <= i < |members| ==> EntryIn(sc, allow, key, kind, members[i], r.value))
          && (forall k :: k in r.value ==> exists i :: 0 <= i < |members| && EntryKey(key, members[i]) == Ok(k)))
  }

  predicate EntryIn(sc: Schema, allow: bool, key: Kind, kind: Kind, m: Member, entries: map<MapKey, Value>)
    requires Unquote(m.key).Some?
  {
    && EntryDecodes(sc, allow, key, kind, m)
    && EntryKey(key, m).value in entries
    && entries[EntryKey(key, m).value] == DecodeSingular(sc, allow, kind, m.value).value
  }

  lemma EntryParts(sc: Schema, allow: bool, key: Kind, kind: Kind, m: Member)
    requires Unquote(m.key).Some? && EntryDecodes(sc, allow, key, kind, m)
    ensures EntryKey(key, m).Ok? && DecodeSingular(sc, allow, kind, m.value).Ok?
  {}

  lemma RestDiffers(members: seq<Member>)
    requires KeysOk(members) && NamesDiffer(members) && members != []
    ensures KeysOk(members[1..]) && NamesDiffer(members[1..])
    ensures Unquote(members[0].key).value !in ObjectOf(members[1..])
    ensures forall i :: 0 <= i < |members[1..]| ==> members[1..][i] == members[i + 1]
  {
    hide Unquote, ObjectOf;
    ObjectKeys(members[1..], Unquote(members[0].key).value);
  }

  lemma RestAgrees(sc: Schema, allow: bool, key: Kind, kind: Kind, members: seq<Member>)
    requires members != [] && KeysOk(members) && KeysOk(members[1..]) && SpellingsAgree(sc, allow, key, kind, members)
    ensures SpellingsAgree(sc, allow, key, kind, members[1..])
  {
    hide Clash, Unquote;
  }

  lemma AllDecodeFirst(sc: Schema, allow: bool, key: Kind, kind: Kind, members: seq<Member>)
    requires KeysOk(members) && members != [] && KeysOk(members[1..])
    ensures AllDecode(sc, allow, key, kind, members) <==>
            EntryDecodes(sc, allow, key, kind, members[0]) && AllDecode(sc, allow, key, kind, members[1..])
  {
    hide EntryDecodes, Unquote;
    assert forall i :: 0 <= i < |members[1..]| ==> members[1..][i] == members[i + 1];
    assert forall i :: 1 <= i < |members| ==> members[i] == members[1..][i - 1];
  }

  lemma NoEntriesDecode(sc: Schema, allow: bool, key: Kind, kind: Kind)
    ensures DecodeEntries(sc, allow, key, kind, []) == Ok(map[])
    ensures EntriesAre(sc, allow, key, kind, [], Ok(map[]))
  {}

  /** What one more entry in front makes of the others. */
  lemma FirstEntry(sc: Schema, allow: bool, key: Kind, kind: Kind, members: seq<Member>)
    requires KeysOk(members) && NamesDiffer(members) && members != []
    ensures KeysOk(members[1..])
    ensures var r, more := DecodeEntries(sc, allow, key, kind, members), DecodeEntries(sc, allow, key, kind, members[1..]);
            if EntryDecodes(sc, allow, key, kind, members[0]) && more.Ok? then
              r == Ok(map[EntryKey(key, members[0]).value := DecodeSingular(sc, allow, kind, members[0].value).value]
                      + more.value)
            else r.Err?
  {
    hide DecodeEntries, DecodeSingular, DecodeKey, Unquote, ObjectOf, NamesDiffer;
    RestDiffers(members);
    EntriesUnfold(sc, allow, key, kind, members);
  }

  /** An object of different names decodes as a map exactly when each of its entries does. */
  lemma {:induction false} EntriesOk(sc: Schema, allow: bool, key: Kind, kind: Kind, members: seq<Member>)
    requires KeysOk(members) && NamesDiffer(members)
    ensures DecodeEntries(sc, allow, key, kind, members).Ok? <==> AllDecode(sc, allow, key, kind, members)
  {
    hide DecodeEntries, EntryDecodes, Unquote, NamesDiffer;
    if members == [] {
      NoEntriesDecode(sc, allow, key, kind);
    } else {
      RestDiffers(members);
      FirstEntry(sc, allow, key, kind, members);
      AllDecodeFirst(sc, allow, key, kind, members);
      EntriesOk(sc, allow, key, kind, members[1..]);
    }
  }

  lemma {:induction false} EntriesDecode(sc: Schema, allow: bool, key: Kind, kind: Kind, members: seq<Member>)
    requires KeysOk(members) && NamesDiffer(members)
    requires AllDecode(sc, allow, key, kind, members) && SpellingsAgree(sc, allow, key, kind, members)
    ensures EntriesAre(sc, allow, key, kind, members, DecodeEntries(sc, allow, key, kind, members))
  {
    hide DecodeEntries, EntriesAre, EntryDecodes, Unquote, NamesDiffer, SpellingsAgree, AllDecode;
    if members == [] {
      NoEntriesDecode(sc, allow, key, kind);
    } else {
      RestDiffers(members);
      RestAgrees(sc, allow, key, kind, members);
      AllDecodeFirst(sc, allow, key, kind, members);
      EntriesDecode(sc, allow, key, kind, members[1..]);
      EntriesOk(sc, allow, key, kind, members[1..]);
      FirstEntry(sc, allow, key, kind, members);
      EntriesGrow(sc, allow, key, kind, members, DecodeEntries(sc, allow, key, kind, members[1..]).value);
    }
  }

  lemma EntriesGrow(sc: Schema, allow: bool, key: Kind, kind: Kind, members: seq<Member>, more: map<MapKey, Value>)
    requires KeysOk(members) && SpellingsAgree(sc, allow, key, kind, members) && members != [] && KeysOk(members[1..])
    requires EntriesAre(sc, allow, key, kind, members[1..], Ok(more)) && EntryDecodes(sc, allow, key, kind, members[0])
    ensures var k, v := EntryKey(key, members[0]).value, DecodeSingular(sc, allow, kind, members[0].value).value;
            EntriesAre(sc, allow, key, kind, members, Ok(map[k := v] + more))
  {
    hide DecodeSingular, EntryKey, EntryDecodes, EntryIn, Unquote, SpellingsAgree;
    EntryParts(sc, allow, key, kind, members[0]);
    var k := EntryKey(key, members[0]).value;
    var all := map[k := DecodeSingular(sc, allow, kind, members[0].value).value] + more;
    KeyAgrees(sc, allow, key, kind, members, more);
    forall i | 0 <= i < |members|
      ensures EntryIn(sc, allow, key, kind, members[i], all) && EntryDecodes(sc, allow, key, kind, members[i])
    {
      EntryInGrows(sc, allow, key, kind, members[i], members[0], more);
      if i > 0 {
        assert members[i] == members[1..][i - 1];
        assert EntryIn(sc, allow, key, kind, members[1..][i - 1], more);
      }
    }
    forall x | x in all ensures exists i :: 0 <= i < |members| && EntryKey(key, members[i]) == Ok(x) {
      if x in more {
        var i :| 0 <= i < |members[1..]| && EntryKey(key, members[1..][i]) == Ok(x);
        assert members[1..][i] == members[i + 1];
      } else {
        assert EntryKey(key, members[0]) == Ok(x);
      }
    }
  }

  /** If the others already have the first entry's key, it is with the same value. */
  lemma KeyAgrees(sc: Schema, allow: bool, key: Kind, kind: Kind, members: seq<Member>, more: map<MapKey, Value>)
    requires KeysOk(members) && SpellingsAgree(sc, allow, key, kind, members) && members != [] && KeysOk(members[1..])
    requires EntriesAre(sc, allow, key, kind, members[1..], Ok(more)) && EntryDecodes(sc, allow, key, kind, members[0])
    ensures var k, v := EntryKey(key, members[0]).value, DecodeSingular(sc, allow, kind, members[0].value).value;
            k in more ==> more[k] == v
  {
    hide DecodeSingular, DecodeKey, Unquote, AllDecode;
    var k := EntryKey(key, members[0]).value;
    if k in more {
      var i :| 0 <= i < |members[1..]| && EntryKey(key, members[1..][i]) == Ok(k);
      assert members[1..][i] == members[i + 1];
      assert EntryIn(sc, allow, key, kind, members[1..][i], more);
      assert !Clash(sc, allow, key, kind, members[0], members[i + 1]);
    }
  }

  /** An entry that is in the map stays in it when another is put in front; that one is in it too, when
      its key is new or has its value. */
  lemma EntryInGrows(sc: Schema, allow: bool, key: Kind, kind: Kind, m: Member, first: Member, more: map<MapKey, Value>)
    requires Unquote(m.key).Some? && Unquote(first.key).Some? && EntryDecodes(sc, allow, key, kind, first)
    ensures var k, v := EntryKey(key, first).value, DecodeSingular(sc, allow, kind, first.value).value;
            && (EntryIn(sc, allow, key, kind, m, more) ==>
                  EntryDecodes(sc, allow, key, kind, m) && EntryIn(sc, allow, key, kind, m, map[k := v] + more))
            && ((k in more ==> more[k] == v) ==> EntryIn(sc, allow, key, kind, first, map[k := v] + more))
  {
    hide DecodeSingular, DecodeKey, Unquote;
  }

  lemma EntriesSettle(sc: Schema, allow: bool, key: Kind, kind: Kind, members: seq<Member>)
    requires KeysOk(members) && NamesDiffer(members) && Orderless(sc, allow, key, kind, members)
    ensures EntriesAre(sc, allow, key, kind, members, DecodeEntries(sc, allow, key, kind, members))
  {
    hide DecodeEntries, AllDecode, SpellingsAgree, EntryIn, EntryKey, Unquote, NamesDiffer, KeysOk;
    EntriesOk(sc, allow, key, kind, members);
    if AllDecode(sc, allow, key, kind, members) {
      EntriesDecode(sc, allow, key, kind, members);
    }
  }

  // ----- the order of the entries -----

  lemma AllDecodeOthers(sc: Schema, allow: bool, key: Kind, kind: Kind, members: seq<Member>, others: seq<Member>)
    requires KeysOk(members) && KeysOk(others) && forall m :: m in others ==> m in members
    ensures AllDecode(sc, allow, key, kind, members) ==> AllDecode(sc, allow, key, kind, others)
  {
    hide EntryDecodes, Unquote;
    if AllDecode(sc, allow, key, kind, members) {
      forall k | 0 <= k < |others| ensures EntryDecodes(sc, allow, key, kind, others[k]) {
        assert others[k] in members;
      }
    }
  }

  lemma SameEntryWithin(sc: Schema, allow: bool, key: Kind, kind: Kind, members: seq<Member>, others: seq<Member>,
                        r: map<MapKey, Value>, r': map<MapKey, Value>, x: MapKey)
    requires KeysOk(members) && KeysOk(others) && forall m :: m in members ==> m in others
    requires EntriesAre(sc, allow, key, kind, members, Ok(r)) && EntriesAre(sc, allow, key, kind, others, Ok(r'))
    requires x in r
    ensures x in r' && r'[x] == r[x]
  {
    hide DecodeSingular, DecodeKey, Unquote, AllDecode;
    var i :| 0 <= i < |members| && EntryKey(key, members[i]) == Ok(x);
    assert members[i] in others;
    var k :| 0 <= k < |others| && others[k] == members[i];
    assert EntryIn(sc, allow, key, kind, members[i], r) && EntryIn(sc, allow, key, kind, others[k], r');
  }

  /** Two lists of the same members whose entries are told apart read alike. */
  lemma SameMembersAlike(sc: Schema, allow: bool, key: Kind, kind: Kind, members: seq<Member>, others: seq<Member>,
                         r: Result<map<MapKey, Value>, DecodeError>, r': Result<map<MapKey, Value>, DecodeError>)
    requires KeysOk(members) && KeysOk(others) && forall m :: m in members <==> m in others
    requires EntriesAre(sc, allow, key, kind, members, r) && EntriesAre(sc, allow, key, kind, others, r')
    ensures SameResult(r, r')
  {
    hide EntriesAre, EntryDecodes, Unquote, KeysOk;
    OkIsAllDecode(sc, allow, key, kind, members, r);
    OkIsAllDecode(sc, allow, key, kind, others, r');
    AllDecodeOthers(sc, allow, key, kind, members, others);
    AllDecodeOthers(sc, allow, key, kind, others, members);
    hide AllDecode;
    if r.Ok? {
      forall x | x in r.value ensures x in r'.value && r'.value[x] == r.value[x] {
        SameEntryWithin(sc, allow, key, kind, members, others, r.value, r'.value, x);
      }
      forall x | x in r'.value ensures x in r.value {
        SameEntryWithin(sc, allow, key, kind, others, members, r'.value, r.value, x);
      }
      assert r.value == r'.value;
    }
  }

  lemma OkIsAllDecode(sc: Schema, allow: bool, key: Kind, kind: Kind, members: seq<Member>,
                      r: Result<map<MapKey, Value>, DecodeError>)
    requires KeysOk(members) && EntriesAre(sc, allow, key, kind, members, r)
    ensures r.Ok? <==> AllDecode(sc, allow, key, kind, members)
  {
    hide AllDecode;
  }

  lemma ClashSwap(sc: Schema, allow: bool, key: Kind, kind: Kind, m: Member, m': Member)
    requires Unquote(m.key).Some? && Unquote(m'.key).Some?
    ensures Clash(sc, allow, key, kind, m, m') <==> Clash(sc, allow, key, kind, m', m)
    ensures !Clash(sc, allow, key, kind, m, m)
  {
    hide DecodeSingular, DecodeKey, Unquote;
  }

  /** No clash among members, in whatever order they stand. */
  lemma AgreeOthers(sc: Schema, allow: bool, key: Kind, kind: Kind, members: seq<Member>, others: seq<Member>)
    requires KeysOk(members) && KeysOk(others) && forall m :: m in others ==> m in members
    requires SpellingsAgree(sc, allow, key, kind, members)
    ensures SpellingsAgree(sc, allow, key, kind, others)
  {
    hide Clash, Unquote;
    forall i, k | 0 <= i < k < |others| ensures !Clash(sc, allow, key, kind, others[i], others[k]) {
      assert others[i] in members && others[k] in members;
      var a :| 0 <= a < |members| && members[a] == others[i];
      var b :| 0 <= b < |members| && members[b] == others[k];
      ClashSwap(sc, allow, key, kind, others[i], others[k]);
    }
  }

  lemma OrderlessOthers(sc: Schema, allow: bool, key: Kind, kind: Kind, members: seq<Member>, others: seq<Member>)
    requires KeysOk(members) && KeysOk(others) && forall m :: m in others <==> m in members
    requires Orderless(sc, allow, key, kind, members)
    ensures Orderless(sc, allow, key, kind, others)
  {
    hide AllDecode, SpellingsAgree, KeysOk;
    AllDecodeOthers(sc, allow, key, kind, others, members);
    if AllDecode(sc, allow, key, kind, others) {
      AgreeOthers(sc, allow, key, kind, members, others);
    }
  }

  /** The last of the entries of one key counts. */
  lemma {:induction false} LastCounts(sc: Schema, allow: bool, key: Kind, kind: Kind, members: seq<Member>)
    requires KeysOk(members) && NamesDiffer(members) && members != [] && AllDecode(sc, allow, key, kind, members)
    ensures var r := DecodeEntries(sc, allow, key, kind, members);
            r.Ok? && EntryIn(sc, allow, key, kind, members[|members| - 1], r.value)
  {
    hide DecodeEntries, AllDecode, EntryDecodes, EntryIn, Unquote, NamesDiffer, ObjectOf;
    RestDiffers(members);
    FirstEntry(sc, allow, key, kind, members);
    AllDecodeFirst(sc, allow, key, kind, members);
    EntriesOk(sc, allow, key, kind, members[1..]);
    var more := DecodeEntries(sc, allow, key, kind, members[1..]).value;
    EntryInGrows(sc, allow, key, kind, members[|members| - 1], members[0], more);
    if |members| == 1 {
      NoEntriesDecode(sc, allow, key, kind);
      assert members[1..] == [];
    } else {
      LastCounts(sc, allow, key, kind, members[1..]);
    }
  }

  function MoveLast(members: seq<Member>, i: nat): seq<Member>
    requires i < |members|
  {
    members[..i] + members[i + 1..] + [members[i]]
  }

  lemma MoveLastKeeps(members: seq<Member>, i: nat)
    requires i < |members| && KeysOk(members) && NamesDiffer(members)
    ensures var moved := MoveLast(members, i);
            && multiset(moved) == multiset(members) && KeysOk(moved) && NamesDiffer(moved)
            && moved[|moved| - 1] == members[i]
  {
    hide Unquote;
    var moved := MoveLast(members, i);
    assert members == members[..i] + [members[i]] + members[i + 1..];
    assert forall x :: 0 <= x < |moved| ==>
             moved[x] == members[if x < i then x else if x < |members| - 1 then x + 1 else i];
  }

  lemma SameMembers(members: seq<Member>, others: seq<Member>)
    requires multiset(members) == multiset(others)
    ensures forall m :: m in members <==> m in others
  {
    forall m ensures m in members <==> m in others {
      assert m in members <==> m in multiset(members);
      assert m in others <==> m in multiset(others);
    }
  }

  /** The same members in any order read alike. */
  ghost predicate OrderIrrelevant(sc: Schema, allow: bool, key: Kind, kind: Kind, members: seq<Member>)
    requires KeysOk(members)
  {
    forall others :: multiset(others) == multiset(members) && KeysOk(others) && NamesDiffer(others) ==>
      SameResult(DecodeEntries(sc, allow, key, kind, members), DecodeEntries(sc, allow, key, kind, others))
  }

  /** Two entries that clash count differently when the one or the other comes last. */
  lemma ClashMatters(sc: Schema, allow: bool, key: Kind, kind: Kind, members: seq<Member>, i: nat, k: nat)
    requires KeysOk(members) && NamesDiffer(members) && AllDecode(sc, allow, key, kind, members)
    requires i < |members| && k < |members| && Clash(sc, allow, key, kind, members[i], members[k])
    ensures !OrderIrrelevant(sc, allow, key, kind, members)
  {
    hide DecodeEntries, DecodeSingular, DecodeKey, AllDecode, Unquote, NamesDiffer, MoveLast;
    var one, two := MoveLast(members, i), MoveLast(members, k);
    MoveLastKeeps(members, i);
    MoveLastKeeps(members, k);
    SameMembers(members, one);
    SameMembers(members, two);
    AllDecodeOthers(sc, allow, key, kind, members, one);
    AllDecodeOthers(sc, allow, key, kind, members, two);
    LastCounts(sc, allow, key, kind, one);
    LastCounts(sc, allow, key, kind, two);
  }

  lemma ClashIn(sc: Schema, allow: bool, key: Kind, kind: Kind, members: seq<Member>) returns (i: nat, k: nat)
    requires KeysOk(members) && !SpellingsAgree(sc, allow, key, kind, members)
    ensures i < |members| && k < |members| && Clash(sc, allow, key, kind, members[i], members[k])
  {
    hide Clash, Unquote;
    i, k :| 0 <= i < k < |members| && Clash(sc, allow, key, kind, members[i], members[k]);
  }

  /** Exactly when the order of the entries of a map does not matter, for any number of them: when one of
      them does not decode, or any two that decode to one key have equal values. */
  lemma SpellingsMatter(sc: Schema, allow: bool, key: Kind, kind: Kind, members: seq<Member>)
    requires KeysOk(members) && NamesDiffer(members)
    ensures OrderIrrelevant(sc, allow, key, kind, members) <==> Orderless(sc, allow, key, kind, members)
  {
    hide DecodeEntries, AllDecode, Clash, EntriesAre, Unquote, NamesDiffer, KeysOk;
    if Orderless(sc, allow, key, kind, members) {
      EntriesSettle(sc, allow, key, kind, members);
      forall others | multiset(others) == multiset(members) && KeysOk(others) && NamesDiffer(others)
        ensures SameResult(DecodeEntries(sc, allow, key, kind, members), DecodeEntries(sc, allow, key, kind, others))
      {
        SameMembers(members, others);
        OrderlessOthers(sc, allow, key, kind, members, others);
        EntriesSettle(sc, allow, key, kind, others);
        SameMembersAlike(sc, allow, key, kind, members, others, DecodeEntries(sc, allow, key, kind, members),
                         DecodeEntries(sc, allow, key, kind, others));
      }
    } else {
      var i, k := ClashIn(sc, allow, key, kind, members);
      ClashMatters(sc, allow, key, kind, members, i, k);
    }
  }
}
