/**
 * Product search and category filtering of products.js (lines 59-84).
 *
 * A card is what the handlers read off a product element: its data
 * attributes, the text of its heading and the source of its image. The
 * visibility of the cards is a sequence of booleans: `true` for
 * `display: flex`, `false` for `display: none`.
 */
module Products {
  import opened Wrappers
  import opened AsciiText

  datatype Card = Card(
    name: Option<string>,       // data-name
    category: Option<string>,   // data-category
    desc: Option<string>,       // data-desc
    price: Option<string>,      // data-price
    heading: Option<string>,    // text of the card's h3, None when it has none
    image: Option<string>       // source of the card's img, None when it has none
  )

  /** A `.filter-btn`: its data-filter attribute and whether it carries the `active` class. */
  datatype FilterButton = FilterButton(filter: Option<string>, active: bool)

  /** The "or" default on a string attribute (lines 19-21, 62, 65-66): a missing or empty value gives the fallback. */
  function OrElse(attr: Option<string>, fallback: string): (r: string)
    ensures attr.Some? && attr.value != [] ==> r == attr.value
    ensures attr.None? || attr.value == [] ==> r == fallback
  {
    if attr.Some? && attr.value != [] then attr.value else fallback
  }

  /** The query as matched (line 61): trimmed, then lower-cased. */
  function NormalizeQuery(raw: string): (q: string)
    ensures q == Lower(Trim(raw))
    ensures NoUpper(q)
    ensures q == [] || (!IsSpace(q[0]) && !IsSpace(q[|q| - 1]))
    ensures AllSpace(raw) ==> q == []
    ensures |q| <= |raw|
  {
    Lower(Trim(raw))
  }

  /** Button `k` is the first one, in document order, that carries the `active` class. */
  predicate IsFirstActive(bs: seq<FilterButton>, k: int)
  {
    0 <= k < |bs| && bs[k].active && forall j :: 0 <= j < k ==> !bs[j].active
  }

  /**
   * The active filter token (line 62): the data-filter of the first active
   * button, or "all" when no button is active or its data-filter is missing or empty.
   */
  function ActiveFilter(bs: seq<FilterButton>): (token: string)
    ensures (forall i :: 0 <= i < |bs| ==> !bs[i].active) ==> token == "all"
    ensures forall k :: IsFirstActive(bs, k) ==> token == OrElse(bs[k].filter, "all")
    ensures token != []
    decreases |bs|
  {
    if |bs| == 0 then "all"
    else if bs[0].active then OrElse(bs[0].filter, "all")
    else
      assert forall k :: IsFirstActive(bs, k) ==> IsFirstActive(bs[1..], k - 1);
      ActiveFilter(bs[1..])
  }

  /**
   * Query match (lines 65, 67): the query is empty, or it occurs in the
   * lower-cased name or in the lower-cased heading text. The category is not looked at.
   */
  predicate MatchesQuery(q: string, card: Card)
    ensures q == [] ==> MatchesQuery(q, card)
    ensures MatchesQuery(q, card) <==>
      || q == []
      || (exists i :: OccursAt(Lower(OrElse(card.name, [])), q, i))
      || (card.heading.Some? && exists i :: OccursAt(Lower(card.heading.value), q, i))
  {
    || q == []
    || Includes(Lower(OrElse(card.name, [])), q)
    || (card.heading.Some? && Includes(Lower(card.heading.value), q))
  }

  /**
   * Filter match (lines 66, 68): the token "all" lets every card through;
   * any other token must equal the lower-cased category exactly, so a token
   * with an upper-case letter lets none through.
   */
  predicate MatchesFilter(token: string, card: Card)
    ensures token == "all" ==> MatchesFilter(token, card)
    ensures MatchesFilter(token, card) && token != "all" ==>
      NoUpper(token) && |token| == |OrElse(card.category, [])|
    ensures MatchesFilter(token, card) && token != "all" ==>
      forall i :: 0 <= i < |token| ==> token[i] == LowerChar(OrElse(card.category, [])[i])
  {
    token == "all" || Lower(OrElse(card.category, [])) == token
  }

  /** `filterProducts` (lines 60-71): the visibility of every card for the current query and buttons. */
  function FilterProducts(raw: string, bs: seq<FilterButton>, cards: seq<Card>): (shown: seq<bool>)
    ensures |shown| == |cards|
    ensures forall i :: 0 <= i < |cards| ==>
      (shown[i] <==> MatchesQuery(NormalizeQuery(raw), cards[i]) && MatchesFilter(ActiveFilter(bs), cards[i]))
  {
    var q := NormalizeQuery(raw);
    var token := ActiveFilter(bs);
    seq(|cards|, i requires 0 <= i < |cards| => MatchesQuery(q, cards[i]) && MatchesFilter(token, cards[i]))
  }

  /** A blank query hides cards only by category. */
  lemma BlankQueryFiltersByCategoryOnly(raw: string, bs: seq<FilterButton>, cards: seq<Card>)
    requires AllSpace(raw)
    ensures forall i :: 0 <= i < |cards| ==>
      (FilterProducts(raw, bs, cards)[i] <==> MatchesFilter(ActiveFilter(bs), cards[i]))
  {
  }

  /** With no active button every card whose name or heading matches is shown. */
  lemma NoActiveButtonFiltersByQueryOnly(raw: string, bs: seq<FilterButton>, cards: seq<Card>)
    requires forall i :: 0 <= i < |bs| ==> !bs[i].active
    ensures forall i :: 0 <= i < |cards| ==>
      (FilterProducts(raw, bs, cards)[i] <==> MatchesQuery(NormalizeQuery(raw), cards[i]))
  {
  }

  /** The query never looks at the category. */
  lemma CategoryNotSearched(q: string, card: Card, category: Option<string>)
    ensures MatchesQuery(q, card.(category := category)) == MatchesQuery(q, card)
  {
  }

  /** The search is case-insensitive: lower-casing the typed query changes nothing. */
  lemma QueryCaseInsensitive(raw: string, bs: seq<FilterButton>, cards: seq<Card>)
    ensures FilterProducts(Lower(raw), bs, cards) == FilterProducts(raw, bs, cards)
  {
    TrimLower(raw);
    LowerIdempotent(Trim(raw));
    assert NormalizeQuery(Lower(raw)) == NormalizeQuery(raw);
  }

  /**
   * The token is compared as written: a token other than "all" holding an
   * upper-case letter matches no card, since categories are lower-cased.
   */
  lemma UpperCaseTokenMatchesNothing(token: string, card: Card)
    requires token != "all" && !NoUpper(token)
    ensures !MatchesFilter(token, card)
  {
  }

  /** A button whose token is the card's own lower-cased category shows the card. */
  lemma OwnCategoryPasses(card: Card)
    ensures MatchesFilter(Lower(OrElse(card.category, [])), card)
  {
  }

  /** Clears the `active` class from every button (line 80). */
  function ClearActive(bs: seq<FilterButton>): (r: seq<FilterButton>)
    ensures |r| == |bs|
    ensures forall i :: 0 <= i < |r| ==> r[i].filter == bs[i].filter && !r[i].active
  {
    seq(|bs|, i requires 0 <= i < |bs| => bs[i].(active := false))
  }

  /** The click handler's class changes (lines 80-81): clear every button, then mark the clicked one. */
  function ClickFilter(bs: seq<FilterButton>, k: nat): (r: seq<FilterButton>)
    requires k < |bs|
    ensures |r| == |bs|
    ensures forall i :: 0 <= i < |r| ==> r[i].filter == bs[i].filter
    ensures forall i :: 0 <= i < |r| ==> (r[i].active <==> i == k)
  {
    var cleared := ClearActive(bs);
    cleared[k := cleared[k].(active := true)]
  }

  function ActiveButtons(bs: seq<FilterButton>): set<int>
  {
    set i | 0 <= i < |bs| && bs[i].active
  }

  /** After a click, the clicked button is the only active one and its token is the filter in force. */
  lemma ClickMakesTokenActive(bs: seq<FilterButton>, k: nat)
    requires k < |bs|
    ensures ActiveButtons(ClickFilter(bs, k)) == {k}
    ensures ActiveFilter(ClickFilter(bs, k)) == OrElse(bs[k].filter, "all")
  {
  }

  /** The product grid: typed query, filter buttons, cards and their current visibility. */
  datatype Catalog = Catalog(query: string, buttons: seq<FilterButton>, cards: seq<Card>, shown: seq<bool>)

  /** Visibility reflects the query and the buttons. */
  predicate InSync(c: Catalog)
  {
    c.shown == FilterProducts(c.query, c.buttons, c.cards)
  }

  /** The search box `input` event (lines 73-75): record the query and refilter. */
  function OnInput(c: Catalog, query: string): (r: Catalog)
    ensures InSync(r)
    ensures r.query == query && r.buttons == c.buttons && r.cards == c.cards
  {
    c.(query := query, shown := FilterProducts(query, c.buttons, c.cards))
  }

  /** A filter button click (lines 79-83): activate button `k` alone, then refilter with its token. */
  function OnFilterClick(c: Catalog, k: nat): (r: Catalog)
    requires k < |c.buttons|
    ensures InSync(r)
    ensures r.query == c.query && r.cards == c.cards
    ensures ActiveButtons(r.buttons) == {k}
    ensures |r.buttons| == |c.buttons| && forall i :: 0 <= i < |r.buttons| ==> r.buttons[i].filter == c.buttons[i].filter
    ensures forall i :: 0 <= i < |r.cards| ==>
      (r.shown[i] <==> MatchesQuery(NormalizeQuery(c.query), c.cards[i])
                       && MatchesFilter(OrElse(c.buttons[k].filter, "all"), c.cards[i]))
  {
    ClickMakesTokenActive(c.buttons, k);
    var bs := ClickFilter(c.buttons, k);
    c.(buttons := bs, shown := FilterProducts(c.query, bs, c.cards))
  }

  /** The example of a shirt search over a shirt and a pair of trousers with no filter active. */
  lemma ShirtSearchExample()
    ensures var shown := FilterProducts("shirt", [], [RedShirt(), BluePants()]);
            |shown| == 2 && shown[0] && !shown[1]
  {
    RedShirtShown();
    BluePantsHidden();
    FilterPair("shirt", [], RedShirt(), BluePants());
  }

  /** Visibility of a two-card grid, card by card. */
  lemma FilterPair(raw: string, bs: seq<FilterButton>, a: Card, b: Card)
    ensures var shown := FilterProducts(raw, bs, [a, b]);
            && |shown| == 2
            && (shown[0] <==> MatchesQuery(NormalizeQuery(raw), a) && MatchesFilter(ActiveFilter(bs), a))
            && (shown[1] <==> MatchesQuery(NormalizeQuery(raw), b) && MatchesFilter(ActiveFilter(bs), b))
  {
  }

  function RedShirt(): Card
  {
    Card(Some("Red Shirt"), Some("tops"), None, None, None, Some("red.jpg"))
  }

  function BluePants(): Card
  {
    Card(Some("Blue Pants"), Some("bottoms"), None, None, None, Some("blue.jpg"))
  }

  lemma RedShirtShown()
    ensures MatchesQuery(NormalizeQuery("shirt"), RedShirt()) && MatchesFilter(ActiveFilter([]), RedShirt())
  {
    ShirtQueryIsNormal();
    RedShirtMatches();
  }

  lemma BluePantsHidden()
    ensures !MatchesQuery(NormalizeQuery("shirt"), BluePants())
  {
    ShirtQueryIsNormal();
    BluePantsDoesNotMatch();
  }

  lemma ShirtQueryIsNormal()
    ensures NormalizeQuery("shirt") == "shirt"
  {
    ShirtIsTrimmed();
    ShirtIsLower();
  }

  lemma ShirtIsTrimmed()
    ensures Trim("shirt") == "shirt"
  {
    var s := "shirt";
    assert s[0] == 's' && s[4] == 't';
    assert TrimStart(s) == s;
    assert TrimEnd(s) == s;
  }

  lemma ShirtIsLower()
    ensures Lower("shirt") == "shirt"
  {
    var s := "shirt";
    assert s[0] == 's' && s[1] == 'h' && s[2] == 'i' && s[3] == 'r' && s[4] == 't';
    LowerOfNoUpper(s);
  }

  lemma RedShirtMatches()
    ensures MatchesQuery("shirt", RedShirt())
  {
    var hay := Lower("Red Shirt");
    assert hay == "red shirt";
    assert OccursAt(hay, "shirt", 4);
  }

  lemma BluePantsDoesNotMatch()
    ensures !MatchesQuery("shirt", BluePants())
  {
    var hay := Lower("Blue Pants");
    assert hay == "blue pants";
    assert hay[0] == 'b' && hay[1] == 'l' && hay[2] == 'u' && hay[3] == 'e' && hay[4] == ' ' && hay[5] == 'p';
    forall i | 0 <= i && i + 5 <= |hay| ensures !OccursAt(hay, "shirt", i) {
      assert hay[i..i + 5][0] == hay[i];
    }
  }
}
