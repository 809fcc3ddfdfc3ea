/**
 * `findCommonPokemon`: the Pokémon that belong to every selected type. The source
 * folds `filter` over the per-type member lists (a `reduce` without a seed, so the
 * first list is the starting value), compares members by name, and returns URLs.
 */
module Intersection {
  import opened Seqs

  /** One entry of a type's member list: `{ pokemon: { name, url } }`. */
  datatype Member = Member(name: string, url: string)

  /** `list.some(m => m.pokemon.name === name)`. */
  predicate HasName(list: seq<Member>, name: string) {
    exists j :: 0 <= j < |list| && list[j].name == name
  }

  /** One step of the fold: the members of `items` whose name occurs in `current`. */
  function KeepIn(items: seq<Member>, current: seq<Member>): seq<Member> {
    Filter(items, (m: Member) => HasName(current, m.name))
  }

  /**
   * One step keeps exactly the members of `items` whose name occurs in `current`,
   * in the order of `items`.
   */
  lemma KeepInMembers(items: seq<Member>, current: seq<Member>)
    ensures var r := KeepIn(items, current);
      && IsSubsequence(r, items)
      && (forall i :: 0 <= i < |r| ==> HasName(current, r[i].name))
      && (forall i :: 0 <= i < |items| && HasName(current, items[i].name) ==> items[i] in r)
  {
    FilterIsSubsequence(items, (m: Member) => HasName(current, m.name));
  }

  /** `rest.reduce(step, acc)`: a left fold of `KeepIn`. */
  function Reduce(acc: seq<Member>, rest: seq<seq<Member>>): (r: seq<Member>)
    ensures |r| <= |acc|
    decreases |rest|
  {
    if |rest| == 0 then acc else Reduce(KeepIn(acc, rest[0]), rest[1..])
  }

  /** `items.map(m => m.pokemon.url)`. */
  function Urls(items: seq<Member>): (r: seq<string>)
    ensures |r| == |items|
    ensures forall i :: 0 <= i < |items| ==> r[i] == items[i].url
  {
    if |items| == 0 then [] else Urls(items[..|items| - 1]) + [items[|items| - 1].url]
  }

  /** The members kept by the fold, before their URLs are taken. */
  function FindCommonMembers(arrays: seq<seq<Member>>): seq<Member>
    requires |arrays| > 0
  {
    Reduce(arrays[0], arrays[1..])
  }

  /** `findCommonPokemon(arrays)`: no lists give no URLs. */
  function FindCommonPokemon(arrays: seq<seq<Member>>): (r: seq<string>)
    ensures |arrays| == 0 ==> r == []
    ensures |arrays| > 0 ==> |r| <= |arrays[0]|
  {
    if |arrays| == 0 then [] else Urls(FindCommonMembers(arrays))
  }

  /** `name` occurs in every one of `lists`. */
  predicate InEvery(name: string, lists: seq<seq<Member>>) {
    forall j :: 0 <= j < |lists| ==> HasName(lists[j], name)
  }

  /** Reference definition: the first list's members whose name occurs in every other list. */
  function CommonMembers(first: seq<Member>, others: seq<seq<Member>>): seq<Member> {
    Filter(first, (m: Member) => InEvery(m.name, others))
  }

  /** The fold of filters is one filter by the conjunction of the steps. */
  lemma {:induction false} ReduceIsCommon(acc: seq<Member>, rest: seq<seq<Member>>)
    ensures Reduce(acc, rest) == CommonMembers(acc, rest)
    decreases |rest|
  {
    if |rest| == 0 {
      FilterAll(acc, (m: Member) => InEvery(m.name, rest));
    } else {
      var step := KeepIn(acc, rest[0]);
      ReduceIsCommon(step, rest[1..]);
      forall name ensures InEvery(name, rest) == (HasName(rest[0], name) && InEvery(name, rest[1..])) {
        InEveryUnfold(name, rest);
      }
      FilterTwice(acc, (m: Member) => HasName(rest[0], m.name),
                  (m: Member) => InEvery(m.name, rest[1..]),
                  (m: Member) => InEvery(m.name, rest));
    }
  }

  /**
   * The result is the URL list of a subsequence of the first list (its order kept)
   * holding exactly the first-list entries whose name occurs in every other list.
   */
  lemma FindCommonIsIntersection(arrays: seq<seq<Member>>)
    requires |arrays| > 0
    ensures var common := CommonMembers(arrays[0], arrays[1..]);
      && FindCommonPokemon(arrays) == Urls(common)
      && IsSubsequence(common, arrays[0])
      && (forall i :: 0 <= i < |common| ==> InEvery(common[i].name, arrays))
      && (forall i :: 0 <= i < |arrays[0]| && InEvery(arrays[0][i].name, arrays) ==> arrays[0][i] in common)
  {
    var first, others := arrays[0], arrays[1..];
    var common := CommonMembers(first, others);
    ReduceIsCommon(first, others);
    FilterIsSubsequence(first, (m: Member) => InEvery(m.name, others));
    forall i | 0 <= i < |common| ensures InEvery(common[i].name, arrays) {
      var m := common[i];
      assert m in first && InEvery(m.name, others);
      var k :| 0 <= k < |first| && first[k] == m;
      forall j | 0 <= j < |arrays| ensures HasName(arrays[j], m.name) {
        if j == 0 {
          assert first[k].name == m.name;
        } else {
          assert arrays[j] == others[j - 1];
        }
      }
    }
    forall i | 0 <= i < |first| && InEvery(first[i].name, arrays) ensures first[i] in common {
      forall j | 0 <= j < |others| ensures HasName(others[j], first[i].name) {
        assert others[j] == arrays[j + 1];
      }
    }
  }

  /** The members kept are a subsequence of the first list. */
  lemma CommonIsSubsequence(arrays: seq<seq<Member>>)
    requires |arrays| > 0
    ensures IsSubsequence(FindCommonMembers(arrays), arrays[0])
  {
    ReduceIsCommon(arrays[0], arrays[1..]);
    FilterIsSubsequence(arrays[0], (m: Member) => InEvery(m.name, arrays[1..]));
  }

  /** A single selected type gives its own URLs, unchanged and in order. */
  lemma FindCommonSingle(list: seq<Member>)
    ensures FindCommonPokemon([list]) == Urls(list)
  {
    assert [list][1..] == [];
  }

  /**
   * Which names survive does not depend on click order: two selections holding the
   * same member lists keep the same names (the URL order follows the first list).
   */
  lemma CommonNamesOrderIndependent(a: seq<seq<Member>>, b: seq<seq<Member>>, name: string)
    requires |a| > 0 && |b| > 0
    requires forall list :: list in a <==> list in b
    ensures HasName(FindCommonMembers(a), name) <==> HasName(FindCommonMembers(b), name)
  {
    InEveryByMembership(a, b, name);
    CommonHasName(a, name);
    CommonHasName(b, name);
  }

  /** A name survives the fold exactly when it occurs in every list. */
  lemma CommonHasName(arrays: seq<seq<Member>>, name: string)
    requires |arrays| > 0
    ensures HasName(FindCommonMembers(arrays), name) <==> InEvery(name, arrays)
  {
    var first, others := arrays[0], arrays[1..];
    var common := CommonMembers(first, others);
    ReduceIsCommon(first, others);
    InEveryUnfold(name, arrays);
    if HasName(common, name) {
      var k :| 0 <= k < |common| && common[k].name == name;
      assert common[k] in first;
      var f :| 0 <= f < |first| && first[f] == common[k];
    }
    if InEvery(name, arrays) {
      var k :| 0 <= k < |first| && first[k].name == name;
      assert first[k] in common;
      var c :| 0 <= c < |common| && common[c] == first[k];
    }
  }

  /** Occurring in every list is occurring in the first and in every later one. */
  lemma InEveryUnfold(name: string, lists: seq<seq<Member>>)
    requires |lists| > 0
    ensures InEvery(name, lists) <==> HasName(lists[0], name) && InEvery(name, lists[1..])
  {
    if HasName(lists[0], name) && InEvery(name, lists[1..]) {
      forall j | 0 <= j < |lists| ensures HasName(lists[j], name) {
        if j > 0 {
          assert lists[j] == lists[1..][j - 1];
        }
      }
    }
    if InEvery(name, lists) {
      forall j | 0 <= j < |lists| - 1 ensures HasName(lists[1..][j], name) {
        assert lists[1..][j] == lists[j + 1];
      }
    }
  }

  /** Occurring in every list depends only on which lists there are. */
  lemma InEveryByMembership(a: seq<seq<Member>>, b: seq<seq<Member>>, name: string)
    requires forall list :: list in a <==> list in b
    ensures InEvery(name, a) <==> InEvery(name, b)
  {
    if InEvery(name, a) {
      forall j | 0 <= j < |b| ensures HasName(b[j], name) {
        assert b[j] in a;
        var k :| 0 <= k < |a| && a[k] == b[j];
      }
    }
    if InEvery(name, b) {
      forall j | 0 <= j < |a| ensures HasName(a[j], name) {
        assert a[j] in b;
        var k :| 0 <= k < |b| && b[k] == a[j];
      }
    }
  }
}
