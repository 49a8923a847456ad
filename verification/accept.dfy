/** Content negotiation and query flags (fserve/__init__.py): `AcceptItem`
    and its `matches`, the selection logic of `choose_accept`, and
    `bool_param`. The header and the offered types come in already split
    and matched against the `type/subtype;q=...` pattern; `casefold` is ASCII
    lower-casing. */
module Negotiation {
  import opened Results

  /** `casefold` on one character, restricted to ASCII. */
  function LowerChar(x: char): char {
    if 'A' <= x <= 'Z' then (x as int + 32) as char else x
  }

  /** `casefold` on a string, restricted to ASCII. */
  function Lower(s: string): (r: string)
    ensures |r| == |s| && forall i | 0 <= i < |s| :: r[i] == LowerChar(s[i])
  {
    if |s| == 0 then [] else [LowerChar(s[0])] + Lower(s[1..])
  }

  /** Two characters that are the same letter up to case. */
  predicate CaseVariant(x: char, y: char) {
    || x == y
    || ('A' <= x <= 'Z' && y as int == x as int + 32)
    || ('A' <= y <= 'Z' && x as int == y as int + 32)
  }

  /** Two strings equal up to the case of their ASCII letters. */
  predicate SameIgnoringCase(a: string, b: string) {
    |a| == |b| && forall i | 0 <= i < |a| :: CaseVariant(a[i], b[i])
  }

  /** A media range after construction: both parts casefolded. */
  datatype AcceptItem = AcceptItem(primary: string, sub: string, quality: real)

  /** `AcceptItem(primary_type, subtype, quality)`. */
  function MakeItem(primary: string, sub: string, quality: real): AcceptItem {
    AcceptItem(Lower(primary), Lower(sub), quality)
  }

  /** `AcceptItem.matches`: `a` is the item of the header, `o` the offered
      one. */
  predicate Matches(a: AcceptItem, o: AcceptItem) {
    if a.primary == "*" then true
    else if a.primary != o.primary then false
    else if a.sub == "*" then true
    else a.sub == o.sub
  }

  /** A `type/subtype` pair as the element pattern captures it. */
  datatype Range = Range(primary: string, sub: string)

  /** A header element that matched the pattern, with the quality the
      `;q=` part gave it (1.0 when absent or not a number). */
  datatype Element = Element(range: Range, quality: real)

  /** One entry of `produces_list`: its text, and its captured pair if the
      pattern matched it. */
  datatype Offer = Offer(raw: string, range: Option<Range>)

  /** A validated offer: its text and its item. */
  datatype Offered = Offered(raw: string, item: AcceptItem)

  datatype NegotiationError =
    | IndexError          // `produces_list[0]` on an empty list
    | ValueError(raw: string)  // an offer that does not match the pattern

  /** Lower-casing one character keeps exactly its case variants together. */
  lemma LowerCharIff(x: char, y: char)
    ensures LowerChar(x) == LowerChar(y) <==> CaseVariant(x, y)
  {
  }

  /** Casefolding identifies exactly the strings that differ only in the
      case of their letters. */
  lemma LowerIff(a: string, b: string)
    ensures Lower(a) == Lower(b) <==> SameIgnoringCase(a, b)
  {
    if Lower(a) == Lower(b) {
      forall i | 0 <= i < |a|
        ensures CaseVariant(a[i], b[i])
      {
        assert Lower(a)[i] == Lower(b)[i];
        LowerCharIff(a[i], b[i]);
      }
    }
    if SameIgnoringCase(a, b) {
      forall i | 0 <= i < |a|
        ensures Lower(a)[i] == Lower(b)[i]
      {
        LowerCharIff(a[i], b[i]);
      }
    }
  }

  /** Only `*` itself casefolds to `*`. */
  lemma LowerStar(s: string)
    ensures Lower(s) == "*" <==> s == "*"
  {
    if Lower(s) == "*" {
      assert LowerChar(s[0]) == '*';
    }
  }

  /** Matching items built from raw pairs: a `*` type matches anything, and
      otherwise the types must agree up to case and the subtypes too unless
      the header's subtype is `*`. */
  lemma MatchesIgnoresCase(t1: string, s1: string, q1: real, t2: string, s2: string, q2: real)
    ensures Matches(MakeItem(t1, s1, q1), MakeItem(t2, s2, q2))
      <==> t1 == "*" || (SameIgnoringCase(t1, t2) && (s1 == "*" || SameIgnoringCase(s1, s2)))
  {
    LowerStar(t1);
    LowerStar(s1);
    LowerIff(t1, t2);
    LowerIff(s1, s2);
  }

  /** Every item matches itself. */
  lemma MatchesReflexive(a: AcceptItem)
    ensures Matches(a, a)
  {
  }

  /** Matching is transitive, so together with reflexivity it orders media
      ranges from the most general down. */
  lemma MatchesTransitive(a: AcceptItem, b: AcceptItem, c: AcceptItem)
    requires Matches(a, b) && Matches(b, c)
    ensures Matches(a, c)
  {
  }

  /** Items without wildcards, as the `\w+` groups of the pattern always
      give, match exactly when they are equal apart from their quality. */
  lemma ConcreteMatches(a: AcceptItem, o: AcceptItem)
    requires a.primary != "*" && a.sub != "*"
    ensures Matches(a, o) <==> a.primary == o.primary && a.sub == o.sub
  {
  }

  /** The accept items, in header order, built from the elements that
      matched the pattern; the others are skipped. */
  function Items(els: seq<Option<Element>>): (r: seq<AcceptItem>)
    ensures |r| <= |els|
  {
    if |els| == 0 then []
    else
      (if els[0].Some? then [MakeItem(els[0].value.range.primary, els[0].value.range.sub, els[0].value.quality)] else [])
      + Items(els[1..])
  }

  /** Skipping distributes over concatenation. */
  lemma {:induction false} ItemsAppend(a: seq<Option<Element>>, b: seq<Option<Element>>)
    ensures Items(a + b) == Items(a) + Items(b)
    decreases |a|
  {
    if |a| > 0 {
      assert (a + b)[0] == a[0] && (a + b)[1..] == a[1..] + b;
      ItemsAppend(a[1..], b);
    } else {
      assert a + b == b;
    }
  }

  /** The value of `quality` once the parsing loop is over: the quality of
      the last element that matched the pattern. The sort's key reads this
      variable, not the item. */
  function LastQuality(els: seq<Option<Element>>): real {
    if |els| == 0 then 1.0
    else if els[|els| - 1].Some? then els[|els| - 1].value.quality
    else LastQuality(els[..|els| - 1])
  }

  /** Keys never increase along `s`. */
  predicate Descending(s: seq<AcceptItem>, key: AcceptItem -> real) {
    forall i, j | 0 <= i < j < |s| :: key(s[i]) >= key(s[j])
  }

  /** Stable insertion of `x` after every item whose key is at least its
      own. */
  function Insert(s: seq<AcceptItem>, x: AcceptItem, key: AcceptItem -> real): (r: seq<AcceptItem>)
    ensures |r| == |s| + 1
  {
    if |s| == 0 || key(s[|s| - 1]) >= key(x) then s + [x]
    else Insert(s[..|s| - 1], x, key) + [s[|s| - 1]]
  }

  /** `list.sort(key=key, reverse=True)`: stable, largest key first. */
  function SortByKey(items: seq<AcceptItem>, key: AcceptItem -> real): (r: seq<AcceptItem>)
    ensures |r| == |items|
  {
    if |items| == 0 then []
    else Insert(SortByKey(items[..|items| - 1], key), items[|items| - 1], key)
  }

  /** Insertion adds exactly `x` and keeps a descending sequence
      descending. */
  lemma {:induction false} InsertPlaces(s: seq<AcceptItem>, x: AcceptItem, key: AcceptItem -> real)
    ensures multiset(Insert(s, x, key)) == multiset(s) + multiset{x}
    ensures Descending(s, key) ==> Descending(Insert(s, x, key), key)
    decreases |s|
  {
    if |s| > 0 && key(s[|s| - 1]) < key(x) {
      var n := |s| - 1;
      InsertPlaces(s[..n], x, key);
      assert s[..n] + [s[n]] == s;
      var r := Insert(s[..n], x, key);
      if Descending(s, key) {
        assert Descending(s[..n], key);
        forall i, j | 0 <= i < j < |r| + 1
          ensures key((r + [s[n]])[i]) >= key((r + [s[n]])[j])
        {
          if j == |r| {
            assert (r + [s[n]])[i] in multiset(r);
          }
        }
      }
    }
  }

  /** The sort is a permutation of its input with keys in descending
      order. */
  lemma {:induction false} SortByKeySorts(items: seq<AcceptItem>, key: AcceptItem -> real)
    ensures multiset(SortByKey(items, key)) == multiset(items)
    ensures Descending(SortByKey(items, key), key)
    decreases |items|
  {
    if |items| > 0 {
      var n := |items| - 1;
      SortByKeySorts(items[..n], key);
      InsertPlaces(SortByKey(items[..n], key), items[n], key);
      assert items[..n] + [items[n]] == items;
    }
  }

  /** With a key that gives every item the same value, as the key of
      `choose_accept` does, the stable sort leaves the order unchanged. */
  lemma {:induction false} SortConstantKey(items: seq<AcceptItem>, key: AcceptItem -> real)
    requires forall a, b :: key(a) == key(b)
    ensures SortByKey(items, key) == items
    decreases |items|
  {
    if |items| > 0 {
      var n := |items| - 1;
      SortConstantKey(items[..n], key);
      assert items[..n] + [items[n]] == items;
    }
  }

  /** The item of a validated offer: default quality. */
  function OfferItem(o: Offer): AcceptItem
    requires o.range.Some?
  {
    MakeItem(o.range.value.primary, o.range.value.sub, 1.0)
  }

  /** Every offer from position `k` on matched the pattern. */
  predicate ValidFrom(offers: seq<Offer>, k: nat) {
    forall j | k <= j < |offers| :: offers[j].range.Some?
  }

  /** The validation loop over `produces_list` from position `k`: the first
      entry that does not match the pattern raises with its text. */
  function Validate(offers: seq<Offer>, k: nat): (r: Result<seq<Offered>, NegotiationError>)
    requires k <= |offers|
    ensures r.Ok? <==> ValidFrom(offers, k)
    ensures r.Ok? ==> |r.value| == |offers| - k
    ensures r.Ok? ==> forall j | k <= j < |offers| :: r.value[j - k] == Offered(offers[j].raw, OfferItem(offers[j]))
    ensures r.Err? ==> exists j | k <= j < |offers| ::
      && offers[j].range.None? && r.error == ValueError(offers[j].raw) && ValidUntil(offers, k, j)
    decreases |offers| - k
  {
    if k == |offers| then Ok([])
    else if offers[k].range.None? then
      assert ValidUntil(offers, k, k);
      Err(ValueError(offers[k].raw))
    else
      var rest :- Validate(offers, k + 1);
      Ok([Offered(offers[k].raw, OfferItem(offers[k]))] + rest)
  }

  /** Every offer in positions `k` to `j - 1` matched the pattern. */
  predicate ValidUntil(offers: seq<Offer>, k: nat, j: nat) {
    forall j' | k <= j' < j && j' < |offers| :: offers[j'].range.Some?
  }

  /** The inner loop of the selection from position `j`: the first offer
      that `a` matches. */
  function FirstOffer(a: AcceptItem, prods: seq<Offered>, j: nat): (r: Option<nat>)
    requires j <= |prods|
    ensures r.Some? ==> j <= r.value < |prods| && Matches(a, prods[r.value].item)
    ensures r.Some? ==> forall j' | j <= j' < r.value :: !Matches(a, prods[j'].item)
    ensures r.None? ==> forall j' | j <= j' < |prods| :: !Matches(a, prods[j'].item)
    decreases |prods| - j
  {
    if j == |prods| then None
    else if Matches(a, prods[j].item) then Some(j)
    else FirstOffer(a, prods, j + 1)
  }

  /** No item before position `i` matches any offer. */
  predicate Unmatched(items: seq<AcceptItem>, prods: seq<Offered>, k: nat, i: nat) {
    forall i' | k <= i' < i && i' < |items| :: forall j | 0 <= j < |prods| :: !Matches(items[i'], prods[j].item)
  }

  /** The winning pair of the selection: item `i` matches offer `j`, no
      earlier item matches any offer, and item `i` matches no earlier offer. */
  predicate IsChoice(items: seq<AcceptItem>, prods: seq<Offered>, i: nat, j: nat) {
    && i < |items| && j < |prods| && Matches(items[i], prods[j].item)
    && Unmatched(items, prods, 0, i)
    && forall j' | 0 <= j' < j :: !Matches(items[i], prods[j'].item)
  }

  /** The outer loop of the selection from item `i`: the positions of the
      winning item and offer. */
  function Pick(items: seq<AcceptItem>, prods: seq<Offered>, i: nat): (r: Option<(nat, nat)>)
    requires i <= |items|
    ensures r.Some? ==> i <= r.value.0 < |items| && r.value.1 < |prods|
    ensures r.Some? ==> Matches(items[r.value.0], prods[r.value.1].item) && Unmatched(items, prods, i, r.value.0)
    ensures r.Some? ==> forall j' | 0 <= j' < r.value.1 :: !Matches(items[r.value.0], prods[j'].item)
    ensures r.None? ==> Unmatched(items, prods, i, |items|)
    decreases |items| - i
  {
    if i == |items| then None
    else
      match FirstOffer(items[i], prods, 0)
      case Some(j) => Some((i, j))
      case None => Pick(items, prods, i + 1)
  }

  /** The accept items after the sort of line 188, whose key is the
      closure over the loop's `quality` variable. */
  function Arranged(els: seq<Option<Element>>): (r: seq<AcceptItem>)
    ensures |r| == |Items(els)|
  {
    SortByKey(Items(els), (v: AcceptItem) => LastQuality(els))
  }

  /** The sort of line 188 keeps the header order. */
  lemma ArrangedInOrder(els: seq<Option<Element>>)
    ensures Arranged(els) == Items(els)
  {
    SortConstantKey(Items(els), (v: AcceptItem) => LastQuality(els));
  }

  /** `choose_accept(accept_header, *produces_list)`. `header` is `None`
      for a missing or empty header and otherwise holds its elements, `None`
      for one that does not match the pattern. */
  function ChooseAccept(header: Option<seq<Option<Element>>>, offers: seq<Offer>): (r: Result<Option<string>, NegotiationError>)
  {
    match header
    case None =>
      if |offers| == 0 then Err(IndexError) else Ok(Some(offers[0].raw))
    case Some(els) =>
      var items := Arranged(els);
      var prods :- Validate(offers, 0);
      match Pick(items, prods, 0)
      case None => Ok(None)
      case Some(p) => Ok(Some(prods[p.1].raw))
  }

  /** There is at most one winning pair. */
  lemma ChoiceUnique(items: seq<AcceptItem>, prods: seq<Offered>, i: nat, j: nat, i2: nat, j2: nat)
    requires IsChoice(items, prods, i, j) && IsChoice(items, prods, i2, j2)
    ensures i == i2 && j == j2
  {
  }

  /** The validated offers of a list in which every entry matched the
      pattern. */
  function Produced(offers: seq<Offer>): (r: seq<Offered>)
    requires ValidFrom(offers, 0)
    ensures |r| == |offers| && forall j | 0 <= j < |offers| :: r[j] == Offered(offers[j].raw, OfferItem(offers[j]))
  {
    seq(|offers|, j requires 0 <= j < |offers| => Offered(offers[j].raw, OfferItem(offers[j])))
  }

  /** Without a header the first offer is returned unchecked, and an empty
      offer list raises. */
  lemma NoHeader(offers: seq<Offer>)
    ensures ChooseAccept(None, offers) == if |offers| == 0 then Err(IndexError) else Ok(Some(offers[0].raw))
    ensures |offers| > 0 ==> ChooseAccept(None, offers).Ok?
  {
  }

  /** With a header, an offer that does not match the pattern raises with
      the text of the first such offer, whatever the header holds. */
  lemma MalformedOffer(els: seq<Option<Element>>, offers: seq<Offer>)
    ensures var r := ChooseAccept(Some(els), offers);
      && (r.Err? <==> !ValidFrom(offers, 0))
      && (r.Err? ==> exists j | 0 <= j < |offers| ::
            offers[j].range.None? && r.error == ValueError(offers[j].raw) && ValidUntil(offers, 0, j))
  {
  }

  /** With a header and well-formed offers, the result is the text of the
      first offer matched by the earliest header element that matches any
      offer, in header order as written, and nothing when no element
      matches. */
  lemma HeaderChoice(els: seq<Option<Element>>, offers: seq<Offer>)
    requires ValidFrom(offers, 0)
    ensures var r := ChooseAccept(Some(els), offers);
      && r.Ok?
      && (r.value.None? <==> Unmatched(Items(els), Produced(offers), 0, |Items(els)|))
      && (r.value.Some? ==> exists i: nat, j: nat :: IsChoice(Items(els), Produced(offers), i, j) && r.value.value == offers[j].raw)
  {
    var items := Items(els);
    ArrangedInOrder(els);
    var prods := Validate(offers, 0).value;
    assert prods == Produced(offers);
    var p := Pick(items, prods, 0);
    if p.Some? {
      assert IsChoice(items, prods, p.value.0, p.value.1);
    }
  }

  /** The winning offer is exactly the one the declarative choice names. */
  lemma HeaderChoiceIff(els: seq<Option<Element>>, offers: seq<Offer>, i: nat, j: nat)
    requires ValidFrom(offers, 0) && IsChoice(Items(els), Produced(offers), i, j)
    ensures ChooseAccept(Some(els), offers) == Ok(Some(offers[j].raw))
  {
    HeaderChoice(els, offers);
    var r := ChooseAccept(Some(els), offers);
    assert Matches(Items(els)[i], Produced(offers)[j].item);
    assert !Unmatched(Items(els), Produced(offers), 0, |Items(els)|);
    var i2: nat, j2: nat :| IsChoice(Items(els), Produced(offers), i2, j2) && r.value.value == offers[j2].raw;
    ChoiceUnique(Items(els), Produced(offers), i, j, i2, j2);
  }

  /** A header element that does not match the pattern has no effect on the
      outcome. */
  lemma SkipsMalformed(a: seq<Option<Element>>, b: seq<Option<Element>>, offers: seq<Offer>)
    ensures ChooseAccept(Some(a + [None] + b), offers) == ChooseAccept(Some(a + b), offers)
  {
    var els := a + [None] + b;
    ItemsAppend(a + [None], b);
    ItemsAppend(a, [None]);
    ItemsAppend(a, b);
    assert Items([None]) == [];
    assert Items(els) == Items(a + b);
    ArrangedInOrder(els);
    ArrangedInOrder(a + b);
    assert Arranged(els) == Arranged(a + b);
  }

  /** `bool_param(query_values)`: nothing for a missing or empty list,
      otherwise whether the first value is other than `false` and `0` up to
      case. */
  function BoolParam(values: Option<seq<string>>): Option<bool> {
    if values.None? || |values.value| == 0 then None
    else
      var v := Lower(values.value[0]);
      Some(v != "false" && v != "0")
  }

  /** `bool_param` is false exactly for the spellings of `false` and `0`,
      in any case, reads only the first value, and is absent exactly for a
      missing or empty list. */
  lemma BoolParamIff(values: Option<seq<string>>)
    ensures BoolParam(values).None? <==> values.None? || |values.value| == 0
    ensures BoolParam(values) == Some(false) <==>
      values.Some? && |values.value| > 0
      && (SameIgnoringCase(values.value[0], "false") || SameIgnoringCase(values.value[0], "0"))
    ensures values.Some? && |values.value| > 0 ==> BoolParam(values) == BoolParam(Some([values.value[0]]))
  {
    if values.Some? && |values.value| > 0 {
      var v := values.value[0];
      LowerIff(v, "false");
      LowerIff(v, "0");
      assert Lower("false") == "false";
      assert Lower("0") == "0";
    }
  }
}
