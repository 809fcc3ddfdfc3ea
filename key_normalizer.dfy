/**
 * The cache key of a type selection (`convertKeyType`): the selected names arrive
 * `-`-joined in click order and are rebuilt in catalogue order, so that one
 * selection gives one key whatever order its types were clicked in.
 */
module KeyNormalizer {
  import opened Seqs
  import opened Strings

  /** The separator between type names in a key. */
  const SEPARATOR: char := '-'

  /** A catalogue type name that survives a round trip through a key. */
  predicate ValidName(name: string) {
    name != "" && NoSeparator(name, SEPARATOR)
  }

  /** The catalogue names that occur among `keys`, in catalogue order. */
  function Selected(list: seq<string>, keys: seq<string>): seq<string> {
    Filter(list, (name: string) => name in keys)
  }

  /** The normalised key of `selectedKey` against the catalogue `list`. */
  function CanonicalKey(list: seq<string>, selectedKey: string): string {
    Join(Selected(list, Split(selectedKey, SEPARATOR)), SEPARATOR)
  }

  /** `convertKeyType`: walks the catalogue once and keeps the names that were selected. */
  method ConvertKeyType(list: seq<string>, selectedKey: string) returns (key: string)
    ensures key == CanonicalKey(list, selectedKey)
  {
    var keys := Split(selectedKey, SEPARATOR);
    var arr: seq<string> := [];
    for i := 0 to |list|
      invariant arr == Selected(list[..i], keys)
    {
      assert list[..i + 1][..i] == list[..i];
      if list[i] in keys {
        arr := arr + [list[i]];
      }
    }
    assert list[..|list|] == list;
    key := Join(arr, SEPARATOR);
  }

  /**
   * The key joins a subsequence of the catalogue that holds exactly the catalogue
   * names found among the `-`-separated pieces of `selectedKey`.
   */
  lemma KeyIsCatalogueSubsequence(list: seq<string>, selectedKey: string)
    ensures var kept := Selected(list, Split(selectedKey, SEPARATOR));
      && CanonicalKey(list, selectedKey) == Join(kept, SEPARATOR)
      && IsSubsequence(kept, list)
      && (forall i :: 0 <= i < |kept| ==> kept[i] in Split(selectedKey, SEPARATOR))
      && (forall i :: 0 <= i < |list| && list[i] in Split(selectedKey, SEPARATOR) ==> list[i] in kept)
  {
    FilterIsSubsequence(list, (name: string) => name in Split(selectedKey, SEPARATOR));
  }

  /** Two selections with the same members select the same catalogue names. */
  lemma SelectedByMembership(list: seq<string>, a: seq<string>, b: seq<string>)
    requires forall name :: name in a <==> name in b
    ensures Selected(list, a) == Selected(list, b)
  {
    FilterCongruent(list, (name: string) => name in a, (name: string) => name in b);
  }

  /**
   * Click order does not matter: two click orders of one selection, each joined
   * with `-`, normalise to the same key.
   */
  lemma KeyOrderIndependent(list: seq<string>, a: seq<string>, b: seq<string>)
    requires forall i :: 0 <= i < |a| ==> ValidName(a[i])
    requires forall i :: 0 <= i < |b| ==> ValidName(b[i])
    requires forall name :: name in a <==> name in b
    ensures CanonicalKey(list, Join(a, SEPARATOR)) == CanonicalKey(list, Join(b, SEPARATOR))
  {
    if |a| == 0 {
      assert forall i :: 0 <= i < |b| ==> b[i] in b;
    } else {
      assert a[0] in b;
      SplitJoin(a, SEPARATOR);
      SplitJoin(b, SEPARATOR);
      SelectedByMembership(list, a, b);
    }
  }

  /** The pieces of a join of valid names are those names, up to the empty piece of an empty join. */
  lemma PiecesOfJoin(names: seq<string>, name: string)
    requires forall i :: 0 <= i < |names| ==> ValidName(names[i])
    requires name != ""
    ensures name in Split(Join(names, SEPARATOR), SEPARATOR) <==> name in names
  {
    if |names| > 0 {
      SplitJoin(names, SEPARATOR);
    }
  }

  /**
   * With valid catalogue names, the key of a `-`-join of valid names is the
   * catalogue names among them, in catalogue order: no splitting is left.
   */
  lemma KeyOfJoin(list: seq<string>, names: seq<string>)
    requires forall i :: 0 <= i < |list| ==> ValidName(list[i])
    requires forall i :: 0 <= i < |names| ==> ValidName(names[i])
    ensures CanonicalKey(list, Join(names, SEPARATOR)) == Join(Selected(list, names), SEPARATOR)
  {
    var pieces := Split(Join(names, SEPARATOR), SEPARATOR);
    forall i | 0 <= i < |list| ensures (list[i] in pieces) == (list[i] in names) {
      PiecesOfJoin(names, list[i]);
    }
    FilterCongruent(list, (name: string) => name in pieces, (name: string) => name in names);
  }

  /**
   * The converse of `KeyOrderIndependent`: two `-`-joined selections of valid names
   * with the same key select the same catalogue names.
   */
  lemma SameKeySameNames(list: seq<string>, a: seq<string>, b: seq<string>)
    requires forall i :: 0 <= i < |list| ==> ValidName(list[i])
    requires forall i :: 0 <= i < |a| ==> ValidName(a[i])
    requires forall i :: 0 <= i < |b| ==> ValidName(b[i])
    requires CanonicalKey(list, Join(a, SEPARATOR)) == CanonicalKey(list, Join(b, SEPARATOR))
    ensures forall i :: 0 <= i < |list| ==> (list[i] in a <==> list[i] in b)
  {
    KeyOfJoin(list, a);
    KeyOfJoin(list, b);
    var ka, kb := Selected(list, a), Selected(list, b);
    SelectedValid(list, a);
    SelectedValid(list, b);
    JoinInjective(ka, kb, SEPARATOR);
    forall i | 0 <= i < |list| ensures list[i] in a <==> list[i] in b {
      SelectedMembership(list, a, i);
      SelectedMembership(list, b, i);
    }
  }

  /** The selected names are catalogue names, so valid when the catalogue's are. */
  lemma SelectedValid(list: seq<string>, keys: seq<string>)
    requires forall i :: 0 <= i < |list| ==> ValidName(list[i])
    ensures forall i :: 0 <= i < |Selected(list, keys)| ==> ValidName(Selected(list, keys)[i])
  {
    var kept := Selected(list, keys);
    forall i | 0 <= i < |kept| ensures ValidName(kept[i]) {
      assert kept[i] in list;
    }
  }

  /** A catalogue name is kept exactly when it is among the keys. */
  lemma SelectedMembership(list: seq<string>, keys: seq<string>, i: nat)
    requires i < |list|
    ensures list[i] in Selected(list, keys) <==> list[i] in keys
  {
  }

  /** When the catalogue holds valid names, an empty key means nothing selected is in the catalogue. */
  lemma KeyEmptyIff(list: seq<string>, selectedKey: string)
    requires forall i :: 0 <= i < |list| ==> ValidName(list[i])
    ensures CanonicalKey(list, selectedKey) == "" <==>
            forall i :: 0 <= i < |list| ==> list[i] !in Split(selectedKey, SEPARATOR)
  {
    var kept := Selected(list, Split(selectedKey, SEPARATOR));
    assert forall i :: 0 <= i < |kept| ==> kept[i] in list;
    JoinEmpty(kept, SEPARATOR);
    if |kept| > 0 {
      assert kept[0] in list;
    }
  }

  /** No selection (the empty join) gives the empty key, which routes to the unfiltered pages. */
  lemma EmptySelectionKey(list: seq<string>)
    requires forall i :: 0 <= i < |list| ==> ValidName(list[i])
    ensures CanonicalKey(list, Join([], SEPARATOR)) == ""
  {
    KeyEmptyIff(list, "");
  }

  /** Normalising a normalised key changes nothing. */
  lemma KeyIdempotent(list: seq<string>, selectedKey: string)
    requires forall i :: 0 <= i < |list| ==> ValidName(list[i])
    ensures CanonicalKey(list, CanonicalKey(list, selectedKey)) == CanonicalKey(list, selectedKey)
  {
    var keys := Split(selectedKey, SEPARATOR);
    var kept := Selected(list, keys);
    var key := Join(kept, SEPARATOR);
    if |kept| == 0 {
      KeyEmptyIff(list, selectedKey);
      KeyEmptyIff(list, key);
    } else {
      assert forall i :: 0 <= i < |kept| ==> kept[i] in list;
      SplitJoin(kept, SEPARATOR);
      FilterCongruent(list, (name: string) => name in kept, (name: string) => name in keys);
    }
  }
}
