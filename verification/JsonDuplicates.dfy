/** `Document::duplicate_members`: which member names a document repeats. */
module JsonDuplicates {
  import opened Prelude
  import opened Utf8
  import opened JsonDom
  import opened JsonPath
  import opened JsonText

  /** `collect_dups`: each repeated name once, at its first occurrence, with its total. */
  function Duplicates(n: Node): seq<(Text, nat)>
    decreases n, 0
  {
    match n.kind
    case Object(ms) => MemberDuplicates(ms)
    case Array(items) => ItemDuplicates(items)
    case _ => []
  }

  function MemberDuplicates(ms: seq<Member>): seq<(Text, nat)>
    decreases ms, 1
  {
    if ms == [] then []
    else (if ms[0].occurrence == 1 && ms[0].total > 1 then [(ms[0].key, ms[0].total)] else [])
         + Duplicates(ms[0].value) + MemberDuplicates(ms[1..])
  }

  function ItemDuplicates(items: seq<Node>): seq<(Text, nat)>
    decreases items, 1
  {
    if items == [] then [] else Duplicates(items[0]) + ItemDuplicates(items[1..])
  }

  lemma {:induction false} DuplicatesAre(n: Node)
    ensures Duplicates(n) == match n.kind
                             case Object(ms) => MemberDuplicates(ms)
                             case Array(items) => ItemDuplicates(items)
                             case _ => []
  {
  }

  lemma {:induction false} MemberDuplicatesOnce(ms: seq<Member>, k: nat)
    requires k < |ms|
    ensures MemberDuplicates(ms[k..])
         == (if ms[k].occurrence == 1 && ms[k].total > 1 then [(ms[k].key, ms[k].total)] else [])
            + Duplicates(ms[k].value) + MemberDuplicates(ms[k + 1..])
  {
    hide Duplicates;
    assert ms[k..][1..] == ms[k + 1..];
  }

  lemma {:induction false} ItemDuplicatesOnce(items: seq<Node>, k: nat)
    requires k < |items|
    ensures ItemDuplicates(items[k..]) == Duplicates(items[k]) + ItemDuplicates(items[k + 1..])
  {
    hide Duplicates;
    assert items[k..][1..] == items[k + 1..];
  }

  lemma {:induction false} NothingMore(ms: seq<Member>, items: seq<Node>)
    ensures MemberDuplicates(ms[|ms|..]) == [] && ItemDuplicates(items[|items|..]) == []
  {
  }

  /** The recursion that pushes to one growing list. */
  class Collector {
    var out: seq<(Text, nat)>

    constructor ()
      ensures out == []
    {
      out := [];
    }

    method Collect(n: Node)
      modifies this
      ensures out == old(out) + Duplicates(n)
      decreases n, 0
    {
      hide Duplicates, MemberDuplicates, ItemDuplicates;
      DuplicatesAre(n);
      match n.kind
      case Object(ms) =>
        var k := 0;
        assert ms[0..] == ms;
        while k < |ms|
          invariant 0 <= k <= |ms|
          invariant out + MemberDuplicates(ms[k..]) == old(out) + MemberDuplicates(ms)
        {
          MemberDuplicatesOnce(ms, k);
          if ms[k].occurrence == 1 && ms[k].total > 1 {
            out := out + [(ms[k].key, ms[k].total)];
          }
          Collect(ms[k].value);
          k := k + 1;
        }
        NothingMore(ms, []);
      case Array(items) =>
        var k := 0;
        assert items[0..] == items;
        while k < |items|
          invariant 0 <= k <= |items|
          invariant out + ItemDuplicates(items[k..]) == old(out) + ItemDuplicates(items)
        {
          ItemDuplicatesOnce(items, k);
          Collect(items[k]);
          k := k + 1;
        }
        NothingMore([], items);
      case _ =>
    }
  }

  /** No object of the content repeats a key. */
  predicate UniqueKeys(j: Json)
    decreases j
  {
    match j
    case JArray(items) => forall k :: 0 <= k < |items| ==> UniqueKeys(items[k])
    case JObject(members) => DistinctKeys(members) && forall k :: 0 <= k < |members| ==> UniqueKeys(members[k].value)
    case _ => true
  }

  predicate DistinctKeys(members: seq<JMember>) {
    forall x, y :: 0 <= x < y < |members| ==> members[x].key != members[y].key
  }

  predicate DistinctNames(ms: seq<Member>) {
    forall x, y :: 0 <= x < y < |ms| ==> ms[x].key != ms[y].key
  }

  predicate NoneRepeated(ms: seq<Member>) {
    forall k :: 0 <= k < |ms| ==> !(ms[k].occurrence == 1 && ms[k].total > 1)
  }

  lemma {:induction false} EmptyMemberDuplicates(ms: seq<Member>)
    ensures MemberDuplicates(ms) == [] <==> NoneRepeated(ms) && forall k :: 0 <= k < |ms| ==> Duplicates(ms[k].value) == []
    decreases |ms|
  {
    hide Duplicates;
    if ms != [] {
      EmptyMemberDuplicates(ms[1..]);
      assert forall k :: 1 <= k < |ms| ==> ms[k] == ms[1..][k - 1];
    }
  }

  lemma {:induction false} EmptyItemDuplicates(items: seq<Node>)
    ensures ItemDuplicates(items) == [] <==> forall k :: 0 <= k < |items| ==> Duplicates(items[k]) == []
    decreases |items|
  {
    hide Duplicates;
    if items != [] {
      EmptyItemDuplicates(items[1..]);
      assert forall k :: 1 <= k < |items| ==> items[k] == items[1..][k - 1];
    }
  }

  /** Two members share a name exactly when some first occurrence knows of a second one. */
  lemma {:induction false} RepeatedIffShared(ms: seq<Member>)
    requires ms == Numbered(Strip(ms))
    ensures NoneRepeated(ms) <==> DistinctNames(ms)
  {
    hide Numbered, Strip, CountNamed;
    if NoneRepeated(ms) {
      forall x, y | 0 <= x < y < |ms| ensures ms[x].key != ms[y].key {
        if ms[x].key == ms[y].key {
          FirstIsRepeated(ms, x, y);
        }
      }
    }
    if k :| 0 <= k < |ms| && ms[k].occurrence == 1 && ms[k].total > 1 {
      SecondIsShared(ms, k);
    }
  }

  lemma {:induction false} SecondIsShared(ms: seq<Member>, k: nat)
    requires ms == Numbered(Strip(ms)) && k < |ms| && ms[k].total > 1
    ensures !DistinctNames(ms)
  {
    hide Numbered, Strip, CountNamed;
    OccurrencesRankDuplicates(ms, ms[k].key);
    assert HasOccurrence(ms, ms[k].key, 1) && HasOccurrence(ms, ms[k].key, 2);
    var x :| 0 <= x < |ms| && ms[x].key == ms[k].key && ms[x].occurrence == 1;
    var y :| 0 <= y < |ms| && ms[y].key == ms[k].key && ms[y].occurrence == 2;
    assert x < y || y < x;
  }

  lemma {:induction false} FirstIsRepeated(ms: seq<Member>, x: nat, y: nat)
    requires ms == Numbered(Strip(ms)) && x < y < |ms| && ms[x].key == ms[y].key
    ensures !NoneRepeated(ms)
  {
    hide Numbered, Strip, CountNamed;
    OccurrencesRankDuplicates(ms, ms[x].key);
    assert HasOccurrence(ms, ms[x].key, 1);
    var k :| 0 <= k < |ms| && ms[k].key == ms[x].key && ms[k].occurrence == 1;
    assert ms[k].total == ms[y].total >= ms[y].occurrence > ms[x].occurrence >= 1;
  }

  lemma {:induction false} ReadItemsAt(b: Bytes, items: seq<Node>, js: seq<Json>, k: nat)
    requires ReadItems(b, items) == Some(js) && k < |items|
    ensures |js| == |items| && ReadJson(b, items[k]) == Some(js[k])
    decreases |items|
  {
    hide ReadJson;
    if |items| > 1 {
      if k > 0 {
        ReadItemsAt(b, items[1..], js[1..], k - 1);
      } else {
        ReadItemsAt(b, items[1..], js[1..], 0);
      }
    } else {
      assert ReadItems(b, items[1..]) == Some([]);
    }
  }

  lemma {:induction false} ReadMembersAt(b: Bytes, ms: seq<Member>, js: seq<JMember>, k: nat)
    requires ReadMembers(b, ms) == Some(js) && k < |ms|
    ensures |js| == |ms| && js[k].key == ms[k].key && ReadJson(b, ms[k].value) == Some(js[k].value)
    decreases |ms|
  {
    hide ReadJson;
    if |ms| > 1 {
      if k > 0 {
        ReadMembersAt(b, ms[1..], js[1..], k - 1);
      } else {
        ReadMembersAt(b, ms[1..], js[1..], 0);
      }
    } else {
      assert ReadMembers(b, ms[1..]) == Some([]);
    }
  }

  /** A document reports no duplicates exactly when no object of its content repeats a key. */
  lemma {:induction false} DuplicatesReported(b: Bytes, n: Node, j: Json)
    requires WellNumbered(n) && ReadJson(b, n) == Some(j)
    ensures Duplicates(n) == [] <==> UniqueKeys(j)
    decreases n
  {
    match n.kind
    case Array(items) => ItemsReported(b, items, j.items);
    case Object(ms) => MembersReported(b, ms, j.members);
    case _ =>
  }

  lemma {:induction false} ItemsReported(b: Bytes, items: seq<Node>, js: seq<Json>)
    requires (forall k :: 0 <= k < |items| ==> WellNumbered(items[k])) && ReadItems(b, items) == Some(js)
    ensures ItemDuplicates(items) == [] <==> UniqueKeys(JArray(js))
    decreases items
  {
    hide Duplicates, WellNumbered, ReadJson, ReadItems;
    EmptyItemDuplicates(items);
    assert |js| == |items| by { ReadItemsLength(b, items); }
    forall k | 0 <= k < |items| ensures Duplicates(items[k]) == [] <==> UniqueKeys(js[k]) {
      ReadItemsAt(b, items, js, k);
      DuplicatesReported(b, items[k], js[k]);
    }
  }

  lemma {:induction false} ReadItemsLength(b: Bytes, items: seq<Node>)
    requires ReadItems(b, items).Some?
    ensures |ReadItems(b, items).value| == |items|
    decreases |items|
  {
    hide ReadJson;
    if items != [] {
      ReadItemsLength(b, items[1..]);
    }
  }

  lemma {:induction false} ReadMembersLength(b: Bytes, ms: seq<Member>)
    requires ReadMembers(b, ms).Some?
    ensures |ReadMembers(b, ms).value| == |ms|
    decreases |ms|
  {
    hide ReadJson;
    if ms != [] {
      ReadMembersLength(b, ms[1..]);
    }
  }

  lemma {:induction false} MembersReported(b: Bytes, ms: seq<Member>, js: seq<JMember>)
    requires (forall k :: 0 <= k < |ms| ==> WellNumbered(ms[k].value)) && ms == Numbered(Strip(ms)) && ReadMembers(b, ms) == Some(js)
    ensures MemberDuplicates(ms) == [] <==> UniqueKeys(JObject(js))
    decreases ms
  {
    hide Duplicates, WellNumbered, ReadJson, ReadMembers, Numbered, Strip, NoneRepeated;
    EmptyMemberDuplicates(ms);
    RepeatedIffShared(ms);
    assert |js| == |ms| by { ReadMembersLength(b, ms); }
    forall k | 0 <= k < |ms| ensures js[k].key == ms[k].key && (Duplicates(ms[k].value) == [] <==> UniqueKeys(js[k].value)) {
      ReadMembersAt(b, ms, js, k);
      DuplicatesReported(b, ms[k].value, js[k].value);
    }
  }

  // ---------------------------------------------------------------- what is reported

  function Keys(ms: seq<Member>): (r: seq<Text>)
    ensures |r| == |ms| && forall k :: 0 <= k < |ms| ==> r[k] == ms[k].key
  {
    seq(|ms|, k requires 0 <= k < |ms| => ms[k].key)
  }

  /** At or below `n` some object has `count` members of this name, more than one. */
  predicate Repeats(n: Node, name: Text, count: nat)
    decreases n
  {
    match n.kind
    case Object(ms) =>
      (count >= 2 && multiset(Keys(ms))[name] == count) || exists k :: 0 <= k < |ms| && Repeats(ms[k].value, name, count)
    case Array(items) => exists k :: 0 <= k < |items| && Repeats(items[k], name, count)
    case _ => false
  }

  lemma {:induction false} CountIsMultiplicity(raw: seq<RawMember>, keys: seq<Text>, name: Text)
    requires |raw| == |keys| && forall k :: 0 <= k < |raw| ==> keys[k] == raw[k].key
    ensures Count(raw, name) == multiset(keys)[name]
    decreases |raw|
  {
    if raw != [] {
      CountIsMultiplicity(raw[1..], keys[1..], name);
      assert keys == [keys[0]] + keys[1..];
    }
  }

  /** Some member is the first of its name and knows of `count`. */
  predicate FirstOf(ms: seq<Member>, name: Text, count: nat) {
    exists k :: 0 <= k < |ms| && ms[k].occurrence == 1 && ms[k].total > 1 && ms[k].key == name && ms[k].total == count
  }

  lemma {:induction false} FirstOfIff(ms: seq<Member>, name: Text, count: nat)
    requires ms == Numbered(Strip(ms))
    ensures FirstOf(ms, name, count) <==> count >= 2 && multiset(Keys(ms))[name] == count
  {
    hide Numbered, Strip, Count;
    var raw := Strip(ms);
    CountIsMultiplicity(raw, Keys(ms), name);
    NumbersAre(ms);
    if count >= 2 && multiset(Keys(ms))[name] == count {
      OccurrenceExists(raw, name, 1);
      var k :| 0 <= k < |raw| && raw[k].key == name && Count(raw[..k + 1], name) == 1;
      assert ms[k].occurrence == 1 && ms[k].total == count;
    }
  }

  lemma {:induction false} NumbersAre(ms: seq<Member>)
    requires ms == Numbered(Strip(ms))
    ensures |Strip(ms)| == |ms|
    ensures forall k :: 0 <= k < |ms| ==>
              && ms[k].key == Strip(ms)[k].key && ms[k].total == Count(Strip(ms), ms[k].key)
              && ms[k].occurrence == Count(Strip(ms)[..k + 1], ms[k].key)
  {
    hide Count;
    var raw := Strip(ms);
    forall k | 0 <= k < |ms|
      ensures ms[k].total == Count(raw, ms[k].key) && ms[k].occurrence == Count(raw[..k + 1], ms[k].key)
    {
      assert Numbered(raw)[k] == NumberOne(raw, k);
    }
  }

  ghost predicate BelowMembers(ms: seq<Member>, name: Text, count: nat) {
    exists k :: 0 <= k < |ms| && (name, count) in Duplicates(ms[k].value)
  }

  lemma {:induction false} MembersListed(ms: seq<Member>, name: Text, count: nat)
    ensures (name, count) in MemberDuplicates(ms) <==> FirstOf(ms, name, count) || BelowMembers(ms, name, count)
    decreases |ms|
  {
    hide Duplicates;
    if ms != [] {
      MembersListed(ms[1..], name, count);
      forall k | 1 <= k < |ms| ensures ms[k] == ms[1..][k - 1] {
      }
      if FirstOf(ms[1..], name, count) || BelowMembers(ms[1..], name, count) {
        assert forall k :: 0 <= k < |ms| - 1 ==> ms[1..][k] == ms[k + 1];
      }
    }
  }

  lemma {:induction false} ItemsListed(items: seq<Node>, name: Text, count: nat)
    ensures (name, count) in ItemDuplicates(items) <==> exists k :: 0 <= k < |items| && (name, count) in Duplicates(items[k])
    decreases |items|
  {
    hide Duplicates;
    if items != [] {
      ItemsListed(items[1..], name, count);
      assert forall k :: 0 <= k < |items| - 1 ==> items[1..][k] == items[k + 1];
      assert forall k :: 1 <= k < |items| ==> items[k] == items[1..][k - 1];
    }
  }

  /** A name is reported with a number exactly when some object has that many members of this name, more than one. */
  lemma {:induction false} ReportedExactly(n: Node, name: Text, count: nat)
    requires WellNumbered(n)
    ensures (name, count) in Duplicates(n) <==> Repeats(n, name, count)
    decreases n
  {
    hide MemberDuplicates, ItemDuplicates, FirstOf, Numbered;
    match n.kind
    case Object(ms) =>
      MembersListed(ms, name, count);
      FirstOfIff(ms, name, count);
      forall k | 0 <= k < |ms| ensures (name, count) in Duplicates(ms[k].value) <==> Repeats(ms[k].value, name, count) {
        ReportedExactly(ms[k].value, name, count);
      }
    case Array(items) =>
      ItemsListed(items, name, count);
      forall k | 0 <= k < |items| ensures (name, count) in Duplicates(items[k]) <==> Repeats(items[k], name, count) {
        ReportedExactly(items[k], name, count);
      }
    case _ =>
  }
}
