/**
 * The filter: the active tag selection with its click and URL-seed
 * updates, the per-card match in AND or OR mode, the pass over all cards
 * and the state of the filter buttons.
 */
module Filter {
  import opened Wrappers
  import opened Tags
  import opened DataTags
  import opened Articles
  import opened Cards

  /** The tag of the "show all" button. */
  const AllTag := "__all"

  /** `active.every(t => cardTags.includes(t))`. */
  function EveryIn(active: seq<string>, cardTags: seq<string>): bool {
    |active| == 0 || (active[0] in cardTags && EveryIn(active[1..], cardTags))
  }

  /** `active.some(t => cardTags.includes(t))`. */
  function SomeIn(active: seq<string>, cardTags: seq<string>): bool {
    |active| > 0 && (active[0] in cardTags || SomeIn(active[1..], cardTags))
  }

  lemma {:induction false} EveryMeansAll(active: seq<string>, cardTags: seq<string>)
    ensures EveryIn(active, cardTags) <==> forall t :: t in active ==> t in cardTags
  {
    if |active| > 0 {
      EveryMeansAll(active[1..], cardTags);
      assert forall t :: t in active <==> t == active[0] || t in active[1..];
    }
  }

  lemma {:induction false} SomeMeansExists(active: seq<string>, cardTags: seq<string>)
    ensures SomeIn(active, cardTags) <==> exists t :: t in active && t in cardTags
  {
    if |active| > 0 {
      SomeMeansExists(active[1..], cardTags);
      assert forall t :: t in active <==> t == active[0] || t in active[1..];
    }
  }

  /** `articleMatchesFilter` on a card's tag list: AND mode is `every`, OR mode is `some`. */
  function Matches(active: seq<string>, cardTags: seq<string>, useAnd: bool): bool {
    if |active| == 0 then true
    else if useAnd then EveryIn(active, cardTags)
    else SomeIn(active, cardTags)
  }

  /** The match in set terms: AND shows the card iff all active tags are on it, OR iff some is. */
  lemma MatchesMeaning(active: seq<string>, cardTags: seq<string>)
    requires |active| > 0
    ensures Matches(active, cardTags, true) <==> forall t :: t in active ==> t in cardTags
    ensures Matches(active, cardTags, false) <==> exists t :: t in active && t in cardTags
  {
    EveryMeansAll(active, cardTags);
    SomeMeansExists(active, cardTags);
  }

  /** `articleMatchesFilter` on a card: its tags are read back from `data-tags`. */
  function ArticleMatchesFilter(active: seq<string>, card: Card, useAnd: bool): bool {
    Matches(active, ParseDataTags(card.dataTags), useAnd)
  }

  /** With no active tag every card is shown, in either mode. */
  lemma EmptySelectionShowsAll(card: Card, useAnd: bool)
    ensures ArticleMatchesFilter([], card, useAnd)
  {
  }

  /** AND mode is at least as strict as OR mode. */
  lemma AndImpliesOr(active: seq<string>, cardTags: seq<string>)
    requires Matches(active, cardTags, true)
    ensures Matches(active, cardTags, false)
  {
    if |active| > 0 {
      MatchesMeaning(active, cardTags);
      assert active[0] in active;
    }
  }

  /**
   * On the card of an article, the match is set semantics on the article's
   * normalised tags: AND shows it iff every active tag is among them, OR
   * iff some active tag is.
   */
  lemma MatchOnCard(a: Article, active: seq<string>)
    requires |active| > 0
    ensures ArticleMatchesFilter(active, CreateCard(a), true) <==>
      forall t :: t in active ==> t in a.tags && t in Canonical
    ensures ArticleMatchesFilter(active, CreateCard(a), false) <==>
      exists t :: t in active && t in a.tags && t in Canonical
  {
    var tags := Normalize(a.tags);
    assert ParseDataTags(CreateCard(a).dataTags) == tags;
    MatchesMeaning(active, tags);
  }

  /** A single selected tag, as the URL seed sets it, shows exactly the cards carrying it. */
  lemma SingleTagSelection(t: string, cardTags: seq<string>, useAnd: bool)
    ensures Matches([t], cardTags, useAnd) <==> t in cardTags
  {
    MatchesMeaning([t], cardTags);
    assert t in [t];
  }

  /** `list.filter(x => x !== t)`. */
  function RemoveAll(s: seq<string>, t: string): (r: seq<string>)
    ensures t !in r
    ensures forall x :: x != t ==> (x in r <==> x in s)
    ensures t !in s ==> r == s
    ensures NoDup(s) ==> NoDup(r)
  {
    if s == [] then []
    else
      var rest := RemoveAll(s[1..], t);
      assert forall x :: x in s <==> x == s[0] || x in s[1..];
      assert s == [s[0]] + s[1..];
      assert NoDup(s) ==> NoDup(s[1..]) && s[0] !in s[1..];
      if s[0] == t then rest else [s[0]] + rest
  }

  /** Removing the one occurrence of a tag from a duplicate-free list leaves the others in place. */
  lemma {:induction false} RemoveOnlyThat(s: seq<string>, i: nat)
    requires NoDup(s) && i < |s|
    ensures RemoveAll(s, s[i]) == s[..i] + s[i + 1..]
  {
    if i > 0 {
      assert s[1..][i - 1] == s[i];
      assert NoDup(s[1..]);
      RemoveOnlyThat(s[1..], i - 1);
      assert s[..i] == [s[0]] + s[1..][..i - 1];
      assert s[i + 1..] == s[1..][i..];
    } else {
      assert s[0] !in s[1..];
      assert s[..0] + s[1..] == s[1..];
    }
  }

  lemma {:induction false} RemoveAllAppend(s: seq<string>, u: seq<string>, t: string)
    ensures RemoveAll(s + u, t) == RemoveAll(s, t) + RemoveAll(u, t)
  {
    if s != [] {
      assert (s + u)[1..] == s[1..] + u;
      RemoveAllAppend(s[1..], u, t);
    } else {
      assert s + u == u;
    }
  }

  /** The click on a tag button other than "show all": remove the tag if present, append it otherwise. */
  function Toggled(active: seq<string>, t: string): seq<string> {
    if t in active then RemoveAll(active, t) else active + [t]
  }

  /** The selection after a click on the button whose tag is `t`. */
  function Clicked(active: seq<string>, t: string): seq<string> {
    if t == AllTag then [] else Toggled(active, t)
  }

  /** A toggle never introduces a duplicate. */
  lemma ToggledNoDup(active: seq<string>, t: string)
    requires NoDup(active)
    ensures NoDup(Toggled(active, t))
  {
  }

  /** Toggling a present tag removes it and changes nothing else. */
  lemma ToggledRemovesPresent(active: seq<string>, i: nat)
    requires NoDup(active) && i < |active|
    ensures Toggled(active, active[i]) == active[..i] + active[i + 1..]
  {
    RemoveOnlyThat(active, i);
  }

  /** Toggling a tag twice gives back the same set of active tags. */
  lemma ToggleTwiceSameSet(active: seq<string>, t: string)
    ensures forall x :: x in Toggled(Toggled(active, t), t) <==> x in active
  {
    if t !in active {
      ToggleTwiceAbsent(active, t);
    }
  }

  /** Toggling an absent tag twice gives back the very same list. */
  lemma ToggleTwiceAbsent(active: seq<string>, t: string)
    requires t !in active
    ensures Toggled(Toggled(active, t), t) == active
  {
    RemoveAllAppend(active, [t], t);
    assert RemoveAll([t], t) == [];
    assert active + [] == active;
  }

  /**
   * Toggling a present tag twice moves it to the end: the list comes back
   * unchanged only when the tag already was last.
   */
  lemma ToggleTwicePresent(active: seq<string>, t: string)
    requires t in active
    ensures Toggled(Toggled(active, t), t) == RemoveAll(active, t) + [t]
    ensures active[|active| - 1] != t ==> Toggled(Toggled(active, t), t) != active
  {
    var twice := Toggled(Toggled(active, t), t);
    assert twice[|twice| - 1] == t;
  }

  /**
   * A click on a tag button flips that button and leaves every other tag
   * button as it was.
   */
  lemma ClickFlipsOnlyItsButton(active: seq<string>, t: string, other: string)
    requires t != AllTag && other != AllTag && other != t
    ensures ButtonActive(Clicked(active, t), t) == !ButtonActive(active, t)
    ensures ButtonActive(Clicked(active, t), other) == ButtonActive(active, other)
  {
  }

  /** `syncFilterButtons`: "show all" is active iff nothing is selected, any other button iff its tag is. */
  function ButtonActive(active: seq<string>, buttonTag: string): bool {
    if buttonTag == AllTag then |active| == 0 else buttonTag in active
  }

  /**
   * As long as the selection never holds "__all", the "show all" button is
   * active exactly when no other button is.
   */
  lemma AllButtonExclusive(active: seq<string>)
    requires AllTag !in active
    ensures ButtonActive(active, AllTag) <==>
      forall t :: t != AllTag ==> !ButtonActive(active, t)
  {
    if |active| > 0 {
      assert ButtonActive(active, active[0]);
    }
  }

  /** The shared filter state: the selection and the AND toggle control. */
  class FilterState {
    /** The active tags, in selection order. */
    var activeTags: seq<string>
    /** The AND toggle: `None` when the page has no such control, else whether it is checked. */
    var andToggle: Option<bool>

    ghost predicate Valid()
      reads this
    {
      NoDup(activeTags) && AllTag !in activeTags
    }

    /** `andFilterToggle && andFilterToggle.checked`. */
    function UseAnd(): bool
      reads this
    {
      andToggle == Some(true)
    }

    constructor (andToggle: Option<bool>)
      ensures Valid()
      ensures activeTags == [] && this.andToggle == andToggle
    {
      activeTags := [];
      this.andToggle := andToggle;
    }

    /** `checkUrlForFilters`, given the value of the `tag` query parameter, if any. */
    method CheckUrlForFilters(tag: Option<string>)
      requires Valid()
      modifies this`activeTags
      ensures Valid()
      ensures Truthy(tag) && tag.value in Canonical ==> activeTags == [tag.value]
      ensures !(Truthy(tag) && tag.value in Canonical) ==> activeTags == old(activeTags)
    {
      if tag.Some? && tag.value != "" && tag.value in Canonical {
        activeTags := [tag.value];
      }
    }

    /** The click handler of the filter button whose tag is `tag`. */
    method Click(tag: string)
      requires Valid()
      modifies this`activeTags
      ensures Valid()
      ensures activeTags == Clicked(old(activeTags), tag)
      ensures tag == AllTag ==> activeTags == []
      ensures tag != AllTag && tag !in old(activeTags) ==> activeTags == old(activeTags) + [tag]
      ensures tag != AllTag && tag in old(activeTags) ==>
        tag !in activeTags &&
        forall x :: x != tag ==> (x in activeTags <==> x in old(activeTags))
      ensures AllCanonical(old(activeTags)) && (tag in Canonical || tag == AllTag) ==>
        AllCanonical(activeTags)
    {
      if tag == AllTag {
        activeTags := [];
      } else {
        if tag in activeTags {
          ghost var before := activeTags;
          activeTags := RemoveAll(activeTags, tag);
          assert forall i :: 0 <= i < |activeTags| ==> activeTags[i] in before;
        } else {
          activeTags := activeTags + [tag];
        }
      }
    }

    /** A change of the AND toggle; only a present control can fire it. */
    method SetAndToggle(checked: bool)
      requires andToggle.Some?
      modifies this`andToggle
      ensures andToggle == Some(checked)
    {
      andToggle := Some(checked);
    }

    /**
     * `applyFilter`: the visibility of every card, whether any is visible,
     * whether the no-results message is shown and whether the grid is
     * scrolled into view.
     */
    method ApplyFilter(cards: seq<Card>) returns (visible: seq<bool>, any: bool, showNoResults: bool, scroll: bool)
      ensures |visible| == |cards|
      ensures forall i :: 0 <= i < |cards| ==>
        visible[i] == ArticleMatchesFilter(activeTags, cards[i], UseAnd())
      ensures any <==> true in visible
      ensures showNoResults <==> true !in visible
      ensures |activeTags| == 0 ==> false !in visible
      ensures scroll <==> |activeTags| > 0
    {
      visible, any := FilterCards(activeTags, cards, andToggle == Some(true));
      showNoResults := !any;
      scroll := |activeTags| > 0;
    }
  }

  /** The loop of `applyFilter`: each card's visibility, and whether any card is visible. */
  method FilterCards(active: seq<string>, cards: seq<Card>, useAnd: bool) returns (visible: seq<bool>, any: bool)
    ensures |visible| == |cards|
    ensures forall i :: 0 <= i < |cards| ==> visible[i] == ArticleMatchesFilter(active, cards[i], useAnd)
    ensures any <==> true in visible
    ensures |active| == 0 ==> false !in visible
  {
    visible := [];
    any := false;
    var i := 0;
    while i < |cards|
      invariant 0 <= i <= |cards|
      invariant |visible| == i
      invariant forall k :: 0 <= k < i ==> visible[k] == ArticleMatchesFilter(active, cards[k], useAnd)
      invariant any <==> true in visible
    {
      var vis := ArticleMatchesFilter(active, cards[i], useAnd);
      visible := visible + [vis];
      if vis {
        any := true;
      }
      i := i + 1;
    }
  }

  /**
   * The init pipeline once the feed has been parsed: load the articles,
   * seed the selection from the URL, render the cards and filter them.
   */
  method Init(records: seq<Record>, urlTag: Option<string>, andToggle: Option<bool>)
    returns (state: FilterState, cards: seq<Card>, visible: seq<bool>, any: bool)
    ensures fresh(state) && state.Valid() && state.andToggle == andToggle
    ensures state.activeTags == if Truthy(urlTag) && urlTag.value in Canonical then [urlTag.value] else []
    ensures cards == RenderArticles(LoadArticles(records))
    ensures |visible| == |cards|
    ensures forall i :: 0 <= i < |cards| ==>
      visible[i] == ArticleMatchesFilter(state.activeTags, cards[i], state.UseAnd())
    ensures any <==> true in visible
  {
    var articles := LoadArticles(records);
    state := new FilterState(andToggle);
    state.CheckUrlForFilters(urlTag);
    cards := RenderArticles(articles);
    var showNoResults, scroll;
    visible, any, showNoResults, scroll := state.ApplyFilter(cards);
  }
}
