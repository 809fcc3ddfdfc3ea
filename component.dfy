/**
 * The state of the `Pokemons` component and its handlers: the type selection,
 * the page, the URL list being paged, and the three caches (unfiltered pages,
 * pages per type key, filtered URL lists per type key).
 *
 * React state setters are modelled as assignments. A handler reads the state
 * it was created with (its closure), so every read in a handler sees the state
 * from before the handler's own setters.
 */
module Component {
  import opened Seqs
  import opened Strings
  import opened KeyNormalizer
  import opened Intersection
  import Paging

  /** `ITEM_PER_PAGE`. */
  const ITEM_PER_PAGE: nat := 48

  /** A Pokémon as shown in a tile: name, artwork URL and its types. */
  datatype Item = Item(name: string, url: string, types: seq<string>)

  /** A catalogue type with the list of its members. */
  datatype PokemonType = PokemonType(name: string, url: string, pokemon: seq<Member>)

  /** `types.map(t => t.name)`. */
  function TypeNames(types: seq<PokemonType>): (names: seq<string>)
    ensures |names| == |types|
    ensures forall i :: 0 <= i < |types| ==> names[i] == types[i].name
  {
    seq(|types|, i requires 0 <= i < |types| => types[i].name)
  }

  /** `types.map(t => t.pokemon)`. */
  function MemberLists(types: seq<PokemonType>): (lists: seq<seq<Member>>)
    ensures |lists| == |types|
    ensures forall i :: 0 <= i < |types| ==> lists[i] == types[i].pokemon
  {
    seq(|types|, i requires 0 <= i < |types| => types[i].pokemon)
  }

  /** `types.some(t => t.name === name)`. */
  predicate HasType(types: seq<PokemonType>, name: string) {
    exists i :: 0 <= i < |types| && types[i].name == name
  }

  /** No two selected types share a name. */
  predicate DistinctNames(types: seq<PokemonType>) {
    forall i, j :: 0 <= i < j < |types| ==> types[i].name != types[j].name
  }

  /** `types.find(t => t.name === name)`: the first type with that name. */
  function FindType(types: seq<PokemonType>, name: string): (t: PokemonType)
    requires HasType(types, name)
    ensures t.name == name
    ensures exists k :: 0 <= k < |types| && types[k] == t && forall j :: 0 <= j < k ==> types[j].name != name
  {
    if types[0].name == name then types[0]
    else
      assert HasType(types[1..], name) by {
        var i :| 0 <= i < |types| && types[i].name == name;
        assert types[1..][i - 1] == types[i];
      }
      var t := FindType(types[1..], name);
      assert exists k :: 0 < k < |types| && types[k] == t && forall j :: 0 <= j < k ==> types[j].name != name by {
        var k :| 0 <= k < |types[1..]| && types[1..][k] == t && forall j :: 0 <= j < k ==> types[1..][j].name != name;
        assert types[k + 1] == t;
        assert forall j :: 1 <= j < k + 1 ==> types[j] == types[1..][j - 1];
      }
      t
  }

  /**
   * The selection after clicking `typeName`: removed by name if selected, else appended.
   * The clicked name is selected afterwards exactly when it was not before, and every
   * type selected afterwards was selected before or comes from the catalogue.
   */
  function ToggleType(selected: seq<PokemonType>, typeName: string, catalogue: seq<PokemonType>): (r: seq<PokemonType>)
    requires HasType(catalogue, typeName)
    ensures HasType(r, typeName) <==> !HasType(selected, typeName)
    ensures forall i :: 0 <= i < |r| ==> r[i] in selected || r[i] in catalogue
  {
    if HasType(selected, typeName) then Filter(selected, (t: PokemonType) => t.name != typeName)
    else
      var added := selected + [FindType(catalogue, typeName)];
      assert added[|selected|].name == typeName;
      added
  }

  /** Every type name is non-empty and free of `-`, and no two types share a name, as in PokeAPI. */
  predicate CatalogueValid(types: seq<PokemonType>) {
    && (forall i :: 0 <= i < |types| ==> ValidName(types[i].name))
    && DistinctNames(types)
  }

  /** The key of a selection: its names joined in click order, then normalised. */
  function SelectionKey(catalogue: seq<PokemonType>, selected: seq<PokemonType>): string {
    CanonicalKey(TypeNames(catalogue), Join(TypeNames(selected), SEPARATOR))
  }

  /**
   * With valid names, the key of a selection is the catalogue names that are selected,
   * in catalogue order, joined by `-`: the click order is gone.
   */
  lemma SelectionKeyNames(catalogue: seq<PokemonType>, selected: seq<PokemonType>)
    ensures (forall i :: 0 <= i < |catalogue| ==> ValidName(catalogue[i].name)) &&
            (forall i :: 0 <= i < |selected| ==> ValidName(selected[i].name)) ==>
      SelectionKey(catalogue, selected) == Join(Selected(TypeNames(catalogue), TypeNames(selected)), SEPARATOR)
  {
    if (forall i :: 0 <= i < |catalogue| ==> ValidName(catalogue[i].name)) &&
       (forall i :: 0 <= i < |selected| ==> ValidName(selected[i].name)) {
      KeyOfJoin(TypeNames(catalogue), TypeNames(selected));
    }
  }

  /**
   * A click flips exactly the clicked name: afterwards a name is selected iff it was
   * selected before, unless it is the clicked one.
   */
  lemma ToggleFlipsName(selected: seq<PokemonType>, typeName: string, catalogue: seq<PokemonType>, name: string)
    requires HasType(catalogue, typeName)
    ensures HasType(ToggleType(selected, typeName, catalogue), name) <==> (HasType(selected, name) != (name == typeName))
  {
    var r := ToggleType(selected, typeName, catalogue);
    if HasType(selected, typeName) {
      if HasType(r, name) {
        var i :| 0 <= i < |r| && r[i].name == name;
        assert r[i] in selected;
      }
      if HasType(selected, name) && name != typeName {
        var i :| 0 <= i < |selected| && selected[i].name == name;
        assert selected[i] in r;
        var k :| 0 <= k < |r| && r[k] == selected[i];
      }
    } else {
      assert r[|r| - 1].name == typeName;
      if HasType(r, name) && name != typeName {
        var i :| 0 <= i < |r| && r[i].name == name;
        assert i < |selected| && r[i] == selected[i];
      }
      if HasType(selected, name) {
        var i :| 0 <= i < |selected| && selected[i].name == name;
        assert r[i] == selected[i];
      }
    }
  }

  /** Removal keeps the order of the rest; adding goes at the end. */
  lemma ToggleOrder(selected: seq<PokemonType>, typeName: string, catalogue: seq<PokemonType>)
    requires HasType(catalogue, typeName)
    ensures HasType(selected, typeName) ==> IsSubsequence(ToggleType(selected, typeName, catalogue), selected)
    ensures !HasType(selected, typeName) ==>
      var r := ToggleType(selected, typeName, catalogue);
      |r| == |selected| + 1 && r[..|selected|] == selected && r[|selected|].name == typeName
  {
    FilterIsSubsequence(selected, (t: PokemonType) => t.name != typeName);
  }

  /** Selecting a type and clicking it again restores the selection. */
  lemma ToggleTwiceRestores(selected: seq<PokemonType>, typeName: string, catalogue: seq<PokemonType>)
    requires HasType(catalogue, typeName)
    requires !HasType(selected, typeName)
    ensures ToggleType(ToggleType(selected, typeName, catalogue), typeName, catalogue) == selected
  {
    var added := ToggleType(selected, typeName, catalogue);
    assert added[|added| - 1].name == typeName;
    assert HasType(added, typeName);
    var keep := (t: PokemonType) => t.name != typeName;
    FilterAll(selected, keep);
    assert added[..|added| - 1] == selected;
  }

  /** A click on a catalogue type keeps the selection within the catalogue. */
  lemma ToggleInCatalogue(selected: seq<PokemonType>, typeName: string, catalogue: seq<PokemonType>)
    requires HasType(catalogue, typeName)
    requires forall i :: 0 <= i < |selected| ==> selected[i] in catalogue
    ensures var r := ToggleType(selected, typeName, catalogue);
      forall i :: 0 <= i < |r| ==> r[i] in catalogue
  {
    var r := ToggleType(selected, typeName, catalogue);
    forall i | 0 <= i < |r| ensures r[i] in catalogue {
      if r[i] in selected {
        var k :| 0 <= k < |selected| && selected[k] == r[i];
      }
    }
  }

  /** Clicking keeps the selected names distinct. */
  lemma ToggleKeepsDistinct(selected: seq<PokemonType>, typeName: string, catalogue: seq<PokemonType>)
    requires HasType(catalogue, typeName)
    requires DistinctNames(selected)
    ensures DistinctNames(ToggleType(selected, typeName, catalogue))
  {
    var r := ToggleType(selected, typeName, catalogue);
    if HasType(selected, typeName) {
      DistinctSubsequence(r, selected);
      FilterIsSubsequence(selected, (t: PokemonType) => t.name != typeName);
    } else {
      forall i, j | 0 <= i < j < |r| ensures r[i].name != r[j].name {
        if j == |r| - 1 {
          assert r[i] == selected[i];
        } else {
          assert r[i] == selected[i] && r[j] == selected[j];
        }
      }
    }
  }

  lemma {:induction false} DistinctSubsequence(a: seq<PokemonType>, b: seq<PokemonType>)
    requires DistinctNames(b)
    ensures IsSubsequence(a, b) ==> DistinctNames(a)
    decreases |b|
  {
    if IsSubsequence(a, b) && |a| > 0 {
      var a', b' := a[..|a| - 1], b[..|b| - 1];
      assert DistinctNames(b');
      DistinctSubsequence(a, b');
      DistinctSubsequence(a', b');
      if a[|a| - 1] == b[|b| - 1] {
        SubsequenceMembers(a', b');
        forall i | 0 <= i < |a'| ensures a'[i].name != a[|a| - 1].name {
          var k :| 0 <= k < |b'| && b'[k] == a'[i];
          assert b[k] == b'[k];
        }
      }
    }
  }

  lemma {:induction false} SubsequenceMembers(a: seq<PokemonType>, b: seq<PokemonType>)
    requires IsSubsequence(a, b)
    ensures forall i :: 0 <= i < |a| ==> a[i] in b
    decreases |b|
  {
    if |a| > 0 {
      var a', b' := a[..|a| - 1], b[..|b| - 1];
      if a[|a| - 1] == b[|b| - 1] {
        SubsequenceMembers(a', b');
        forall i | 0 <= i < |a| ensures a[i] in b {
          if i < |a| - 1 {
            assert a[i] == a'[i] && a'[i] in b';
          }
        }
      } else {
        SubsequenceMembers(a, b');
      }
    }
  }

  /**
   * Two selections holding the same type names (in any click order) have the same
   * key, when type names are non-empty and free of `-`.
   */
  lemma SameSelectionSameKey(catalogue: seq<PokemonType>, a: seq<PokemonType>, b: seq<PokemonType>)
    requires forall i :: 0 <= i < |a| ==> ValidName(a[i].name)
    requires forall i :: 0 <= i < |b| ==> ValidName(b[i].name)
    requires forall name :: HasType(a, name) <==> HasType(b, name)
    ensures SelectionKey(catalogue, a) == SelectionKey(catalogue, b)
  {
    var na, nb := TypeNames(a), TypeNames(b);
    forall name ensures name in na <==> name in nb {
      if name in na {
        var i :| 0 <= i < |na| && na[i] == name;
        assert HasType(a, name);
        var j :| 0 <= j < |b| && b[j].name == name;
        assert nb[j] == name;
      }
      if name in nb {
        var i :| 0 <= i < |nb| && nb[i] == name;
        assert HasType(b, name);
        var j :| 0 <= j < |a| && a[j].name == name;
        assert na[j] == name;
      }
    }
    KeyOrderIndependent(TypeNames(catalogue), na, nb);
  }

  /**
   * The converse of `SameSelectionSameKey`: two selections of catalogue types with the
   * same key hold the same types, so they select the same member lists.
   */
  lemma SameKeySameTypes(catalogue: seq<PokemonType>, a: seq<PokemonType>, b: seq<PokemonType>)
    requires CatalogueValid(catalogue)
    requires forall i :: 0 <= i < |a| ==> a[i] in catalogue
    requires forall i :: 0 <= i < |b| ==> b[i] in catalogue
    requires SelectionKey(catalogue, a) == SelectionKey(catalogue, b)
    ensures forall t :: t in a <==> t in b
    ensures forall list :: list in MemberLists(a) <==> list in MemberLists(b)
  {
    var names := TypeNames(catalogue);
    SelectionNamesValid(catalogue, a);
    SelectionNamesValid(catalogue, b);
    SelectionKeyNames(catalogue, a);
    SelectionKeyNames(catalogue, b);
    SameKeySameNames(names, TypeNames(a), TypeNames(b));
    forall t | t in a ensures t in b {
      SameNameSameType(catalogue, a, b, t);
    }
    forall t | t in b ensures t in a {
      SameNameSameType(catalogue, b, a, t);
    }
    SameTypesSameLists(a, b);
  }

  /** Selections holding the same types select the same member lists. */
  lemma SameTypesSameLists(a: seq<PokemonType>, b: seq<PokemonType>)
    requires forall t :: t in a <==> t in b
    ensures forall list :: list in MemberLists(a) <==> list in MemberLists(b)
  {
    forall list | list in MemberLists(a) ensures list in MemberLists(b) {
      var i :| 0 <= i < |a| && MemberLists(a)[i] == list;
      assert a[i] in a;
      var j :| 0 <= j < |b| && b[j] == a[i];
      assert MemberLists(b)[j] == list;
    }
    forall list | list in MemberLists(b) ensures list in MemberLists(a) {
      var i :| 0 <= i < |b| && MemberLists(b)[i] == list;
      assert b[i] in b;
      var j :| 0 <= j < |a| && a[j] == b[i];
      assert MemberLists(a)[j] == list;
    }
  }

  /** Types taken from a valid catalogue have valid names. */
  lemma SelectionNamesValid(catalogue: seq<PokemonType>, sel: seq<PokemonType>)
    requires CatalogueValid(catalogue)
    requires forall i :: 0 <= i < |sel| ==> sel[i] in catalogue
    ensures forall i :: 0 <= i < |TypeNames(sel)| ==> ValidName(TypeNames(sel)[i])
    ensures forall i :: 0 <= i < |TypeNames(catalogue)| ==> ValidName(TypeNames(catalogue)[i])
  {
    forall i | 0 <= i < |sel| ensures ValidName(sel[i].name) {
      var k :| 0 <= k < |catalogue| && catalogue[k] == sel[i];
    }
  }

  /** A type of `a` whose name is also selected in `b`, all from one catalogue, is in `b`. */
  lemma SameNameSameType(catalogue: seq<PokemonType>, a: seq<PokemonType>, b: seq<PokemonType>, t: PokemonType)
    requires DistinctNames(catalogue)
    requires forall i :: 0 <= i < |b| ==> b[i] in catalogue
    requires t in a && t in catalogue
    requires forall i :: 0 <= i < |catalogue| ==> (catalogue[i].name in TypeNames(a) <==> catalogue[i].name in TypeNames(b))
    ensures t in b
  {
    var k :| 0 <= k < |catalogue| && catalogue[k] == t;
    var i :| 0 <= i < |a| && a[i] == t;
    assert TypeNames(a)[i] == t.name;
    var j :| 0 <= j < |b| && TypeNames(b)[j] == t.name;
    var m :| 0 <= m < |catalogue| && catalogue[m] == b[j];
    assert catalogue[m].name == catalogue[k].name;
  }

  /**
   * `urls` are the URLs of entries of one selected type's member list, kept in that
   * list's order, whose names are exactly those found in every selected type.
   */
  ghost predicate CommonOf(urls: seq<string>, selected: seq<PokemonType>) {
    exists common: seq<Member>, t: PokemonType ::
      && t in selected && IsSubsequence(common, t.pokemon) && urls == Urls(common)
      && forall name :: HasName(common, name) <==> InEvery(name, MemberLists(selected))
  }

  /** A non-empty selection of types from a valid catalogue has a non-empty key. */
  lemma NonEmptySelectionKey(catalogue: seq<PokemonType>, selected: seq<PokemonType>)
    requires CatalogueValid(catalogue)
    requires |selected| > 0 && forall i :: 0 <= i < |selected| ==> selected[i] in catalogue
    ensures SelectionKey(catalogue, selected) != ""
  {
    SelectionNamesValid(catalogue, selected);
    SelectionKeyNames(catalogue, selected);
    var names := Selected(TypeNames(catalogue), TypeNames(selected));
    assert selected[0] in catalogue;
    assert TypeNames(selected)[0] in TypeNames(selected);
    var k :| 0 <= k < |catalogue| && catalogue[k] == selected[0];
    assert TypeNames(catalogue)[k] in names;
    SelectedValid(TypeNames(catalogue), TypeNames(selected));
    JoinEmpty(names, SEPARATOR);
  }

  /**
   * A URL list computed for `sel` is the common list of any selection `selected`
   * with the same key: the key, not the click order, decides what is in view.
   */
  lemma CachedListIsCommon(catalogue: seq<PokemonType>, selected: seq<PokemonType>, sel: seq<PokemonType>)
    requires CatalogueValid(catalogue)
    requires forall i :: 0 <= i < |selected| ==> selected[i] in catalogue
    requires forall i :: 0 <= i < |sel| ==> sel[i] in catalogue
    requires |sel| > 0 && SelectionKey(catalogue, sel) == SelectionKey(catalogue, selected)
    ensures CommonOf(FindCommonPokemon(MemberLists(sel)), selected)
  {
    SameKeySameTypes(catalogue, selected, sel);
    CommonOfSameTypes(sel, selected);
  }

  /** The common list of `sel` is the common list of any selection holding the same types. */
  lemma CommonOfSameTypes(sel: seq<PokemonType>, selected: seq<PokemonType>)
    requires |sel| > 0
    requires forall t :: t in selected <==> t in sel
    requires forall list :: list in MemberLists(selected) <==> list in MemberLists(sel)
    ensures CommonOf(FindCommonPokemon(MemberLists(sel)), selected)
  {
    var lists := MemberLists(sel);
    var common := FindCommonMembers(lists);
    CommonNamesOfSameLists(lists, MemberLists(selected));
    CommonIsSubsequence(lists);
    var t := sel[0];
    assert t in selected && lists[0] == t.pokemon;
    assert IsSubsequence(common, t.pokemon) && FindCommonPokemon(lists) == Urls(common);
  }

  /** The names kept for `lists` are those found in every list of a selection with the same lists. */
  lemma CommonNamesOfSameLists(lists: seq<seq<Member>>, others: seq<seq<Member>>)
    requires |lists| > 0
    requires forall list :: list in others <==> list in lists
    ensures forall name :: HasName(FindCommonMembers(lists), name) <==> InEvery(name, others)
  {
    forall name ensures HasName(FindCommonMembers(lists), name) <==> InEvery(name, others) {
      CommonHasName(lists, name);
      InEveryByMembership(lists, others, name);
    }
  }
  /**
   * `urls` is the URL list computed for `sel`, a non-empty selection of catalogue types
   * whose key is `key`: the intersection of its member lists.
   */
  ghost predicate ListFor(catalogue: seq<PokemonType>, key: string, sel: seq<PokemonType>, urls: seq<string>) {
    && |sel| > 0 && (forall i :: 0 <= i < |sel| ==> sel[i] in catalogue)
    && SelectionKey(catalogue, sel) == key && urls == FindCommonPokemon(MemberLists(sel))
  }

  /** Every URL list in `cache` was computed for a selection with its key. */
  ghost predicate ListsCached(catalogue: seq<PokemonType>, cache: map<string, seq<string>>) {
    forall key :: key in cache ==> exists sel :: ListFor(catalogue, key, sel, cache[key])
  }

  /** Caching the intersection for a selection under its own key keeps every list accounted for. */
  lemma ListsCachedExtend(catalogue: seq<PokemonType>, cache: map<string, seq<string>>, sel: seq<PokemonType>)
    requires ListsCached(catalogue, cache)
    requires |sel| > 0 && forall i :: 0 <= i < |sel| ==> sel[i] in catalogue
    ensures ListsCached(catalogue, cache[SelectionKey(catalogue, sel) := FindCommonPokemon(MemberLists(sel))])
  {
    var key := SelectionKey(catalogue, sel);
    var cache' := cache[key := FindCommonPokemon(MemberLists(sel))];
    forall k | k in cache' ensures exists s :: ListFor(catalogue, k, s, cache'[k]) {
      if k == key {
        assert ListFor(catalogue, k, sel, cache'[k]);
      } else {
        var s :| ListFor(catalogue, k, s, cache[k]);
        assert ListFor(catalogue, k, s, cache'[k]);
      }
    }
  }

  class Pokemons {
    /** The item-detail fetch, reduced to a function from URL to item. */
    const fetchItem: string -> Item

    var count: nat
    var pokemonTypes: seq<PokemonType>
    var pokemons: seq<Item>
    var page: nat
    var selectedTypes: seq<PokemonType>
    var fetchUrls: seq<string>
    var pokemonsByPage: map<nat, seq<Item>>
    var pokemonsByType: map<string, map<nat, seq<Item>>>
    var fetchUrlsByType: map<string, seq<string>>
    /** Every item URL fetched so far, in order. */
    ghost var requested: seq<string>

    /** A key with a cached URL list also has a page map: both are written by one click. */
    ghost predicate CachesCoherent()
      reads this`fetchUrlsByType, this`pokemonsByType
    {
      fetchUrlsByType.Keys <= pokemonsByType.Keys
    }

    /** The caches are coherent and no type is selected twice. */
    ghost predicate Valid()
      reads this`fetchUrlsByType, this`pokemonsByType, this`selectedTypes
    {
      CachesCoherent() && DistinctNames(selectedTypes)
    }

    /** The catalogue's type names are valid and distinct. */
    ghost predicate NamesValid()
      reads this`pokemonTypes
    {
      CatalogueValid(pokemonTypes)
    }

    /** Every type of `sel` is a catalogue type. */
    ghost predicate InCatalogue(sel: seq<PokemonType>)
      reads this`pokemonTypes
    {
      forall i :: 0 <= i < |sel| ==> sel[i] in pokemonTypes
    }

    /** Every cached URL list was computed for a selection with its key. */
    ghost predicate UrlListsSound()
      reads this`pokemonTypes, this`fetchUrlsByType
    {
      ListsCached(pokemonTypes, fetchUrlsByType)
    }

    /** A page cached under a key with a cached URL list is that list's page, fetched. */
    ghost predicate TypeCacheSound()
      reads this`pokemonsByType, this`fetchUrlsByType
    {
      forall key, p :: key in fetchUrlsByType && key in pokemonsByType && p in pokemonsByType[key] ==>
        pokemonsByType[key][p] == Materialize(Paging.PageSlice(fetchUrlsByType[key], p, ITEM_PER_PAGE))
    }

    /** A non-empty key has its URL list cached, and that list is the one being paged. */
    ghost predicate UrlsOf(key: string)
      reads this`fetchUrls, this`fetchUrlsByType
    {
      key != "" ==> key in fetchUrlsByType && fetchUrls == fetchUrlsByType[key]
    }

    /**
     * The invariant the handlers keep: valid names, a selection of catalogue types, sound
     * per-type pages, cached URL lists computed for their keys, the current key's URLs in view.
     */
    ghost predicate Sound()
      reads this`pokemonTypes, this`selectedTypes, this`fetchUrls, this`fetchUrlsByType, this`pokemonsByType
    {
      NamesValid() && InCatalogue(selectedTypes) && TypeCacheSound() && UrlListsSound() && UrlsOf(TypeKey())
    }

    /**
     * While types are selected, the URL list in view holds exactly the Pokémon that belong
     * to every selected type, whichever click order first cached it.
     */
    lemma ViewIsCommon()
      requires Sound() && |selectedTypes| > 0
      ensures CommonOf(fetchUrls, selectedTypes)
    {
      NonEmptySelectionKey(pokemonTypes, selectedTypes);
      var key := TypeKey();
      var sel :| ListFor(pokemonTypes, key, sel, fetchUrlsByType[key]);
      CachedListIsCommon(pokemonTypes, selectedTypes, sel);
    }

    constructor (fetchItem: string -> Item)
      ensures Valid() && Sound()
      ensures this.fetchItem == fetchItem
      ensures count == 0 && page == 0 && pokemonTypes == [] && pokemons == []
      ensures selectedTypes == [] && fetchUrls == [] && requested == []
      ensures pokemonsByPage == map[] && pokemonsByType == map[] && fetchUrlsByType == map[]
    {
      this.fetchItem := fetchItem;
      count, page := 0, 0;
      pokemonTypes, pokemons, selectedTypes, fetchUrls := [], [], [], [];
      pokemonsByPage, pokemonsByType, fetchUrlsByType := map[], map[], map[];
      requested := [];
    }

    /** `Promise.all(urls.map(fetch))`: one item per URL, in the order of the URLs. */
    function Materialize(urls: seq<string>): (items: seq<Item>)
      ensures |items| == |urls|
      ensures forall i :: 0 <= i < |urls| ==> items[i] == fetchItem(urls[i])
    {
      seq(|urls|, i requires 0 <= i < |urls| => fetchItem(urls[i]))
    }

    /** The key of the current selection. */
    function TypeKey(): string
      reads this`pokemonTypes, this`selectedTypes
    {
      SelectionKey(pokemonTypes, selectedTypes)
    }

    /** `lastPage`: the number of pages of `count` results. */
    function LastPage(): (r: nat)
      reads this`count
      ensures r * ITEM_PER_PAGE >= count
      ensures r == 0 || (r - 1) * ITEM_PER_PAGE < count
    {
      Paging.LastPage(count, ITEM_PER_PAGE)
    }

    /** The type catalogue arrives (`getPokemonTypes`). */
    method GetPokemonTypes(types: seq<PokemonType>)
      modifies this`pokemonTypes
      ensures pokemonTypes == types
      ensures old(Sound()) && |selectedTypes| == 0 && (forall i :: 0 <= i < |types| ==> ValidName(types[i].name)) ==>
        InCatalogue(selectedTypes) && TypeCacheSound() && UrlsOf(TypeKey())
      ensures old(Sound()) && |selectedTypes| == 0 && CatalogueValid(types) &&
              (fetchUrlsByType == map[] || types == old(pokemonTypes)) ==>
        Sound()
    {
      pokemonTypes := types;
      if |selectedTypes| == 0 && NamesValid() {
        EmptySelectionKey(TypeNames(types));
      }
    }

    /** The full URL list arrives (`getPokemons`): `count` is the server's total. */
    method GetPokemons(total: nat, urls: seq<string>)
      modifies this`count, this`fetchUrls
      ensures count == total && fetchUrls == urls
      ensures old(Sound()) && |selectedTypes| == 0 ==> Sound()
    {
      count := total;
      fetchUrls := urls;
      if old(Sound()) && |selectedTypes| == 0 {
        EmptySelectionKey(TypeNames(pokemonTypes));
      }
    }

    /** Fetches one page of `urls` and stores it as the only page of `typeNameKey`. */
    method FetchAndSetPokemonsByType(typeNameKey: string, urls: seq<string>, atPage: nat)
      requires fetchUrlsByType.Keys <= pokemonsByType.Keys + {typeNameKey}
      modifies this`pokemonsByType, this`pokemons, this`requested
      ensures CachesCoherent()
      ensures var slice := Paging.PageSlice(urls, atPage, ITEM_PER_PAGE);
        && pokemons == Materialize(slice)
        && pokemonsByType == old(pokemonsByType)[typeNameKey := map[atPage := Materialize(slice)]]
        && requested == old(requested) + slice
      ensures old(TypeCacheSound()) && (typeNameKey in fetchUrlsByType ==> fetchUrlsByType[typeNameKey] == urls) ==>
        TypeCacheSound()
    {
      var urlsPagination := Paging.PageSlice(urls, atPage, ITEM_PER_PAGE);
      var mapPoks := Materialize(urlsPagination);
      requested := requested + urlsPagination;
      var pageMap: map<nat, seq<Item>> := map[atPage := mapPoks];
      pokemonsByType := pokemonsByType[typeNameKey := pageMap];
      pokemons := mapPoks;
    }

    /**
     * What serving page `p` of `urls` under `key` does to the caches, the items shown,
     * the count and the fetch log (`fetchPokemonsWithUrls`).
     */
    twostate predicate Served(key: string, p: nat, urls: seq<string>)
      reads this`count, this`pokemons, this`pokemonsByPage, this`pokemonsByType, this`requested
    {
      var slice := Paging.PageSlice(urls, p, ITEM_PER_PAGE);
      var items := Materialize(slice);
      if |urls| == 0 then
        && count == old(count) && pokemons == old(pokemons)
        && pokemonsByPage == old(pokemonsByPage) && pokemonsByType == old(pokemonsByType)
        && requested == old(requested)
      else if key != "" && key in old(pokemonsByType) && p in old(pokemonsByType)[key] then
        // a cached page of a filtered result: shown as cached, nothing fetched
        && count == |urls| && pokemons == old(pokemonsByType)[key][p]
        && pokemonsByPage == old(pokemonsByPage) && pokemonsByType == old(pokemonsByType)
        && requested == old(requested)
      else if key != "" then
        // a filtered page not cached: fetched, and the key's page map replaced by it
        && count == |urls| && pokemons == items
        && pokemonsByPage == old(pokemonsByPage)
        && pokemonsByType == old(pokemonsByType)[key := map[p := items]]
        && requested == old(requested) + slice
      else if p in old(pokemonsByPage) then
        // a cached unfiltered page: shown as cached, nothing fetched
        && count == |urls| && pokemons == old(pokemonsByPage)[p]
        && pokemonsByPage == old(pokemonsByPage) && pokemonsByType == old(pokemonsByType)
        && requested == old(requested)
      else
        // an unfiltered page not cached: fetched and added, other pages untouched
        && count == |urls| && pokemons == items
        && pokemonsByPage == old(pokemonsByPage)[p := items]
        && pokemonsByType == old(pokemonsByType)
        && requested == old(requested) + slice
    }

    /**
     * `fetchPokemonsWithUrls` as a closure of the render in which `selected` was the
     * selection and `p` the page sees it: shows page `p`, from the caches when it can.
     */
    method FetchPokemonsFor(selected: seq<PokemonType>, p: nat)
      requires CachesCoherent()
      modifies this`count, this`pokemons, this`pokemonsByPage, this`pokemonsByType, this`requested
      ensures CachesCoherent()
      ensures Served(SelectionKey(pokemonTypes, selected), p, old(fetchUrls))
      ensures old(TypeCacheSound()) && old(UrlsOf(SelectionKey(pokemonTypes, selected))) ==>
        && TypeCacheSound()
        && (SelectionKey(pokemonTypes, selected) != "" && |fetchUrls| > 0 ==>
              pokemons == Materialize(Paging.PageSlice(fetchUrls, p, ITEM_PER_PAGE)))
    {
      if |fetchUrls| == 0 {
        return;
      }
      var typeNameKey := Join(TypeNames(selected), SEPARATOR);
      var convertedNameKey := ConvertKeyType(TypeNames(pokemonTypes), typeNameKey);
      ServeKey(convertedNameKey, p);
    }

    /** The branches of `fetchPokemonsWithUrls` once the key is known and there are URLs. */
    method ServeKey(convertedNameKey: string, p: nat)
      requires CachesCoherent() && |fetchUrls| > 0
      modifies this`count, this`pokemons, this`pokemonsByPage, this`pokemonsByType, this`requested
      ensures CachesCoherent()
      ensures Served(convertedNameKey, p, fetchUrls)
      ensures old(TypeCacheSound()) && old(UrlsOf(convertedNameKey)) ==>
        && TypeCacheSound()
        && (convertedNameKey != "" ==> pokemons == Materialize(Paging.PageSlice(fetchUrls, p, ITEM_PER_PAGE)))
    {
      var pokemonsToSet: seq<Item> := [];
      if convertedNameKey != "" && convertedNameKey in pokemonsByType && p in pokemonsByType[convertedNameKey] {
        pokemonsToSet := pokemonsByType[convertedNameKey][p];
      } else if convertedNameKey != "" {
        // not awaited: the fetch completes after this handler's own setters below
        count := |fetchUrls|;
        pokemons := pokemonsToSet;
        FetchAndSetPokemonsByType(convertedNameKey, fetchUrls, p);
        return;
      } else if p !in pokemonsByPage {
        var urls := Paging.PageSlice(fetchUrls, p, ITEM_PER_PAGE);
        var mapPoks := Materialize(urls);
        requested := requested + urls;
        pokemonsByPage := pokemonsByPage[p := mapPoks];
        pokemonsToSet := mapPoks;
      } else {
        pokemonsToSet := pokemonsByPage[p];
      }
      count := |fetchUrls|;
      pokemons := pokemonsToSet;
    }

    /**
     * `fetchPokemonsWithUrls` of the current render: shows the current page. Under a
     * filter the items shown are exactly the current page of the filtered list,
     * whether they come from the cache or from a fetch.
     */
    method FetchPokemonsWithUrls()
      requires CachesCoherent()
      modifies this`count, this`pokemons, this`pokemonsByPage, this`pokemonsByType, this`requested
      ensures CachesCoherent()
      ensures Served(old(TypeKey()), old(page), old(fetchUrls))
      ensures old(Sound()) ==> Sound()
      ensures old(Sound()) && TypeKey() != "" && |fetchUrls| > 0 ==>
        pokemons == Materialize(Paging.PageSlice(fetchUrls, page, ITEM_PER_PAGE))
    {
      FetchPokemonsFor(selectedTypes, page);
    }

    /**
     * What showing the selection `updated` under `key` does, serving page `p` of it:
     * a key with a cached URL list shows that list and the cached page (or nothing);
     * a new key intersects the member lists, caches the result and fetches page `p`.
     */
    twostate predicate ShownTypes(key: string, updated: seq<PokemonType>, p: nat)
      reads this`fetchUrls, this`fetchUrlsByType, this`pokemons, this`pokemonsByType, this`requested
      requires old(CachesCoherent())
    {
      if key in old(fetchUrlsByType) then
        && fetchUrls == old(fetchUrlsByType)[key]
        && pokemons == (if p in old(pokemonsByType)[key] then old(pokemonsByType)[key][p] else [])
        && fetchUrlsByType == old(fetchUrlsByType) && pokemonsByType == old(pokemonsByType)
        && requested == old(requested)
      else
        var filtered := FindCommonPokemon(MemberLists(updated));
        var slice := Paging.PageSlice(filtered, p, ITEM_PER_PAGE);
        && fetchUrls == filtered
        && fetchUrlsByType == old(fetchUrlsByType)[key := filtered]
        && pokemonsByType == old(pokemonsByType)[key := map[p := Materialize(slice)]]
        && pokemons == Materialize(slice)
        && requested == old(requested) + slice
    }

    /** The branch of `onSelectType` taken while some type stays selected. */
    method ShowTypes(convertedNameKey: string, updatedSelectedTypes: seq<PokemonType>, p: nat)
      requires CachesCoherent()
      modifies this`fetchUrls, this`fetchUrlsByType, this`pokemons, this`pokemonsByType, this`requested
      ensures CachesCoherent()
      ensures ShownTypes(convertedNameKey, updatedSelectedTypes, p)
      ensures convertedNameKey in fetchUrlsByType && fetchUrls == fetchUrlsByType[convertedNameKey]
      ensures old(TypeCacheSound()) ==> TypeCacheSound()
      ensures old(UrlListsSound()) && |updatedSelectedTypes| > 0 && InCatalogue(updatedSelectedTypes) &&
              SelectionKey(pokemonTypes, updatedSelectedTypes) == convertedNameKey ==>
        UrlListsSound()
    {
      if convertedNameKey in fetchUrlsByType {
        fetchUrls := fetchUrlsByType[convertedNameKey];
        pokemons := if p in pokemonsByType[convertedNameKey] then pokemonsByType[convertedNameKey][p] else [];
      } else {
        CacheNewKey(convertedNameKey, updatedSelectedTypes, p);
      }
    }

    /** A key without a cached URL list: intersect, cache the list, fetch page `p`. */
    method CacheNewKey(convertedNameKey: string, updatedSelectedTypes: seq<PokemonType>, p: nat)
      requires CachesCoherent() && convertedNameKey !in fetchUrlsByType
      modifies this`fetchUrls, this`fetchUrlsByType, this`pokemons, this`pokemonsByType, this`requested
      ensures CachesCoherent()
      ensures ShownTypes(convertedNameKey, updatedSelectedTypes, p)
      ensures convertedNameKey in fetchUrlsByType && fetchUrls == fetchUrlsByType[convertedNameKey]
      ensures old(TypeCacheSound()) ==> TypeCacheSound()
      ensures old(UrlListsSound()) && |updatedSelectedTypes| > 0 && InCatalogue(updatedSelectedTypes) &&
              SelectionKey(pokemonTypes, updatedSelectedTypes) == convertedNameKey ==>
        UrlListsSound()
    {
      var filteredUrls := FindCommonPokemon(MemberLists(updatedSelectedTypes));
      CacheUrls(convertedNameKey, updatedSelectedTypes, filteredUrls);
      FetchAndSetPokemonsByType(convertedNameKey, filteredUrls, p);
    }

    /** `setFetchUrls(filteredUrls)` and the write of the list under its key. */
    method CacheUrls(convertedNameKey: string, updatedSelectedTypes: seq<PokemonType>, filteredUrls: seq<string>)
      requires filteredUrls == FindCommonPokemon(MemberLists(updatedSelectedTypes))
      modifies this`fetchUrls, this`fetchUrlsByType
      ensures fetchUrls == filteredUrls
      ensures fetchUrlsByType == old(fetchUrlsByType)[convertedNameKey := filteredUrls]
      ensures old(UrlListsSound()) && |updatedSelectedTypes| > 0 && InCatalogue(updatedSelectedTypes) &&
              SelectionKey(pokemonTypes, updatedSelectedTypes) == convertedNameKey ==>
        UrlListsSound()
    {
      fetchUrls := filteredUrls;
      fetchUrlsByType := fetchUrlsByType[convertedNameKey := filteredUrls];
      if old(UrlListsSound()) && |updatedSelectedTypes| > 0 && InCatalogue(updatedSelectedTypes) &&
         SelectionKey(pokemonTypes, updatedSelectedTypes) == convertedNameKey {
        ListsCachedExtend(pokemonTypes, old(fetchUrlsByType), updatedSelectedTypes);
      }
    }

    /** The key of a non-empty selection `updated`, and the selection shown under it at page `p`. */
    method ShowSelection(updated: seq<PokemonType>, p: nat)
      requires CachesCoherent()
      modifies this`fetchUrls, this`fetchUrlsByType, this`pokemons, this`pokemonsByType, this`requested
      ensures CachesCoherent()
      ensures ShownTypes(SelectionKey(pokemonTypes, updated), updated, p)
      ensures UrlsOf(SelectionKey(pokemonTypes, updated))
      ensures old(TypeCacheSound()) ==> TypeCacheSound()
      ensures old(UrlListsSound()) && |updated| > 0 && InCatalogue(updated) ==> UrlListsSound()
    {
      var typeNameKey := Join(TypeNames(updated), SEPARATOR);
      var convertedNameKey := ConvertKeyType(TypeNames(pokemonTypes), typeNameKey);
      ShowTypes(convertedNameKey, updated, p);
    }

    /**
     * The rest of `onSelectType`, with the selection `seen` and the page `p` its closure
     * captured. While types stay selected it shows the new key's cached URL list, or
     * intersects, caches and fetches page `p` (not page 0). With no type left it
     * serves page `p` of the selection `seen`.
     */
    method RespondToSelection(seen: seq<PokemonType>, p: nat, updated: seq<PokemonType>)
      requires CachesCoherent()
      modifies this`count, this`pokemons, this`fetchUrls, this`pokemonsByPage,
        this`pokemonsByType, this`fetchUrlsByType, this`requested
      ensures CachesCoherent()
      ensures if |updated| == 0 then
          && fetchUrls == old(fetchUrls) && fetchUrlsByType == old(fetchUrlsByType)
          && Served(SelectionKey(pokemonTypes, seen), p, old(fetchUrls))
        else
          && count == old(count) && pokemonsByPage == old(pokemonsByPage)
          && ShownTypes(SelectionKey(pokemonTypes, updated), updated, p)
      ensures old(TypeCacheSound()) && NamesValid() && (|updated| > 0 || old(UrlsOf(SelectionKey(pokemonTypes, seen)))) ==>
        TypeCacheSound() && UrlsOf(SelectionKey(pokemonTypes, updated))
      ensures old(UrlListsSound()) && InCatalogue(updated) ==> UrlListsSound()
    {
      if |updated| == 0 {
        FetchPokemonsFor(seen, p);
        if NamesValid() {
          EmptySelectionKey(TypeNames(pokemonTypes));
        }
      } else {
        ShowSelection(updated, p);
      }
    }

    /**
     * `onSelectType`: toggles `typeName`, sets the new selection and page 0, then
     * responds with the values the handler's closure captured before the click.
     */
    method OnSelectType(typeName: string)
      requires Valid()
      requires HasType(pokemonTypes, typeName)
      modifies this`selectedTypes, this`page, this`count, this`pokemons, this`fetchUrls, this`pokemonsByPage,
        this`pokemonsByType, this`fetchUrlsByType, this`requested
      ensures Valid()
      ensures selectedTypes == ToggleType(old(selectedTypes), typeName, old(pokemonTypes))
      ensures page == 0
      ensures pokemonTypes == old(pokemonTypes)
      ensures if |selectedTypes| == 0 then
          && fetchUrls == old(fetchUrls) && fetchUrlsByType == old(fetchUrlsByType)
          && Served(old(TypeKey()), old(page), old(fetchUrls))
        else
          && count == old(count) && pokemonsByPage == old(pokemonsByPage)
          && ShownTypes(TypeKey(), selectedTypes, old(page))
      ensures old(Sound()) ==> Sound()
      ensures old(Sound()) && |selectedTypes| > 0 ==> CommonOf(fetchUrls, selectedTypes)
    {
      var seen, p := selectedTypes, page;
      var updatedSelectedTypes := ToggleType(seen, typeName, pokemonTypes);
      ToggleKeepsDistinct(seen, typeName, pokemonTypes);
      if InCatalogue(seen) {
        ToggleInCatalogue(seen, typeName, pokemonTypes);
      }
      selectedTypes := updatedSelectedTypes;
      page := 0;
      RespondToSelection(seen, p, updatedSelectedTypes);
      if old(Sound()) && |selectedTypes| > 0 {
        ViewIsCommon();
      }
    }

    /**
     * Next, clicked while the button is enabled: `disabled={page + 1 === lastPage}`.
     * While there is at least one page this keeps the page below `lastPage`; with
     * `lastPage` 0 (count 0) the click leaves page 0 for a page past the end.
     */
    method OnGoToNextPage()
      requires Paging.NextEnabledAsWritten(page, LastPage())
      modifies this`page
      ensures page == old(page) + 1
      ensures old(Paging.OnAPage(page, LastPage())) && LastPage() > 0 ==> Paging.OnAPage(page, LastPage())
      ensures old(LastPage()) == 0 ==> !Paging.OnAPage(page, LastPage())
    {
      if Paging.OnAPage(page, LastPage()) && LastPage() > 0 {
        Paging.NavigationStaysOnAPage(page, LastPage());
      }
      page := page + 1;
    }

    /** Prev (the button is disabled on page 0). */
    method OnBackToPreviousPage()
      requires Paging.PrevEnabled(page)
      modifies this`page
      ensures page == old(page) - 1
      ensures old(Paging.OnAPage(page, LastPage())) ==> Paging.OnAPage(page, LastPage())
    {
      if Paging.OnAPage(page, LastPage()) {
        Paging.NavigationStaysOnAPage(page, LastPage());
      }
      page := page - 1;
    }
  }

  /**
   * Serving the same page twice: the second time is a cache hit, so both show the
   * same items and the two calls together fetch at most one page of URLs.
   */
  method ServeTwice(c: Pokemons) returns (first: seq<Item>, second: seq<Item>)
    requires c.Valid()
    modifies c
    ensures first == second
    ensures c.requested == old(c.requested)
         || c.requested == old(c.requested) + Paging.PageSlice(old(c.fetchUrls), old(c.page), ITEM_PER_PAGE)
  {
    c.FetchPokemonsWithUrls();
    first := c.pokemons;
    c.FetchPokemonsWithUrls();
    second := c.pokemons;
  }

  /**
   * A click on a type followed by the effect re-run it causes: the page is 0 and,
   * while a filter with results is in view, the items shown are page 0 of the
   * filtered list, from the cache or fetched, and that list holds exactly the
   * Pokémon common to the selected types.
   */
  method SelectAndRefresh(c: Pokemons, typeName: string)
    requires c.Valid()
    requires HasType(c.pokemonTypes, typeName)
    modifies c
    ensures c.Valid()
    ensures c.selectedTypes == ToggleType(old(c.selectedTypes), typeName, old(c.pokemonTypes))
    ensures c.page == 0
    ensures old(c.Sound()) ==> c.Sound()
    ensures old(c.Sound()) && c.TypeKey() != "" && |c.fetchUrls| > 0 ==>
      && c.fetchUrls == c.fetchUrlsByType[c.TypeKey()]
      && c.pokemons == c.Materialize(Paging.PageSlice(c.fetchUrls, 0, ITEM_PER_PAGE))
    ensures old(c.Sound()) && |c.selectedTypes| > 0 ==> CommonOf(c.fetchUrls, c.selectedTypes)
  {
    c.OnSelectType(typeName);
    c.FetchPokemonsWithUrls();
    if old(c.Sound()) && |c.selectedTypes| > 0 {
      c.ViewIsCommon();
    }
  }
}
