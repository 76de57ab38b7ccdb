/**
 * The project gallery: filtering cards by category with the filter buttons,
 * and moving keyboard focus cyclically over the cards still visible.
 */
module Projects {
  import opened Wrappers

  /** Concatenation of `parts` with `sep` between consecutive parts (JavaScript's `join`). */
  function Join(parts: seq<string>, sep: char): string
    requires |parts| > 0
  {
    if |parts| == 1 then parts[0] else parts[0] + [sep] + Join(parts[1..], sep)
  }

  /** A join opens with the first part, puts `sep` right after it when more follow, and closes with the last part. */
  lemma {:induction false} JoinEnds(parts: seq<string>, sep: char)
    requires |parts| > 0
    ensures var text := Join(parts, sep);
            && parts[0] <= text
            && (|parts| > 1 ==> |parts[0]| < |text| && text[|parts[0]|] == sep)
            && var last := parts[|parts| - 1];
               |last| <= |text| && text[|text| - |last|..] == last
    decreases |parts|
  {
    if |parts| > 1 {
      var head, rest, last := parts[0] + [sep], Join(parts[1..], sep), parts[|parts| - 1];
      JoinEnds(parts[1..], sep);
      assert parts[1..][|parts| - 2] == last;
      assert (head + rest)[|head + rest| - |last|..] == rest[|rest| - |last|..];
    }
  }

  /** JavaScript's `s.split(sep)` for a one-character separator: empty pieces are kept. */
  function Split(s: string, sep: char): (parts: seq<string>)
    ensures |parts| > 0
    ensures forall k :: 0 <= k < |parts| ==> sep !in parts[k]
    ensures Join(parts, sep) == s
    decreases |s|
  {
    if |s| == 0 then
      [""]
    else
      var rest := Split(s[1..], sep);
      if s[0] == sep then
        assert [s[0]] + s[1..] == s;
        [""] + rest
      else
        var parts := [[s[0]] + rest[0]] + rest[1..];
        assert parts[1..] == rest[1..];
        assert s == [s[0]] + s[1..];
        parts
  }

  /** Splitting a text that holds no separator gives that text back as the only piece. */
  lemma SplitNoSeparator(s: string, sep: char)
    requires sep !in s
    ensures Split(s, sep) == [s]
  {
  }

  /** A separator-free first piece comes out of the split unchanged, ahead of the rest. */
  lemma {:induction false} SplitFirstPiece(a: string, sep: char, b: string)
    requires sep !in a
    ensures Split(a + [sep] + b, sep) == [a] + Split(b, sep)
    decreases |a|
  {
    var s := a + [sep] + b;
    if |a| == 0 {
      assert s[0] == sep && s[1..] == b;
    } else {
      assert s[0] == a[0] && s[1..] == a[1..] + [sep] + b;
      SplitFirstPiece(a[1..], sep, b);
      assert [a[0]] + a[1..] == a;
    }
  }

  /** Splitting undoes joining, for pieces that hold no separator. */
  lemma {:induction false} SplitJoin(parts: seq<string>, sep: char)
    requires |parts| > 0
    requires forall k :: 0 <= k < |parts| ==> sep !in parts[k]
    ensures Split(Join(parts, sep), sep) == parts
    decreases |parts|
  {
    if |parts| == 1 {
      SplitNoSeparator(parts[0], sep);
    } else {
      SplitJoin(parts[1..], sep);
      SplitFirstPiece(parts[0], sep, Join(parts[1..], sep));
    }
  }

  /** `card.getAttribute('data-category')?.split(' ') || []`. */
  function Categories(attr: Option<string>): (cats: seq<string>)
    ensures attr.None? ==> cats == []
    ensures attr.Some? ==> |cats| > 0 && forall k :: 0 <= k < |cats| ==> ' ' !in cats[k]
    ensures attr.Some? ==> Join(cats, ' ') == attr.value
  {
    match attr
    case None => []
    case Some(s) => Split(s, ' ')
  }

  /** `shouldShow`: a card is shown when the filter is "all" or one of the card's categories. */
  function ShouldShow(filter: Option<string>, attr: Option<string>): (shown: bool)
    ensures filter == Some("all") ==> shown
    ensures filter.None? ==> !shown
    // otherwise the filter must be a whole, non-empty word of the attribute
    ensures shown && filter != Some("all") ==> attr.Some? && ' ' !in filter.value
    ensures shown && filter != Some("all") ==> filter.value in Categories(attr)
  {
    var cats := Categories(attr);
    filter == Some("all") || (filter.Some? && filter.value in cats)
  }

  /** A card whose category attribute lists `words` is shown exactly when the filter is "all" or one of them. */
  lemma ShownIffListed(filter: string, words: seq<string>)
    requires |words| > 0 && forall k :: 0 <= k < |words| ==> ' ' !in words[k]
    ensures ShouldShow(Some(filter), Some(Join(words, ' '))) <==> filter == "all" || filter in words
  {
    SplitJoin(words, ' ');
  }

  /** A card without a category attribute is shown only by the "all" filter; a missing filter shows no card. */
  lemma MissingAttributes(filter: Option<string>, attr: Option<string>)
    ensures ShouldShow(filter, None) <==> filter == Some("all")
    ensures !ShouldShow(None, attr)
  {
  }

  /** The positions from `from` on whose card is visible, in increasing order. */
  function VisibleFrom(shown: seq<bool>, from: nat): (r: seq<nat>)
    requires from <= |shown|
    ensures forall k :: 0 <= k < |r| ==> from <= r[k] < |shown| && shown[r[k]]
    ensures forall i :: from <= i < |shown| && shown[i] ==> i in r
    ensures forall j, k :: 0 <= j < k < |r| ==> r[j] < r[k]
    decreases |shown| - from
  {
    if from == |shown| then []
    else if shown[from] then [from] + VisibleFrom(shown, from + 1)
    else VisibleFrom(shown, from + 1)
  }

  /** `Array.from(projectCards).filter(visible)`: the visible cards in document order. */
  function VisibleCards(shown: seq<bool>): seq<nat> {
    VisibleFrom(shown, 0)
  }

  /** `xs.indexOf(x)`: the first position holding `x`, or -1; `None` (a focus outside every card) is never found. */
  function IndexOf(xs: seq<nat>, x: Option<nat>): (r: int)
    ensures -1 <= r < |xs|
    ensures r >= 0 ==> x == Some(xs[r]) && forall k :: 0 <= k < r ==> xs[k] != xs[r]
    ensures r == -1 ==> x.None? || x.value !in xs
  {
    if xs == [] then -1
    else if x == Some(xs[0]) then 0
    else
      var r := IndexOf(xs[1..], x);
      if r == -1 then -1 else r + 1
  }

  /**
   * The index arithmetic of `navigateProjects` over `n` visible cards. Both
   * operands of `%` are non-negative here, so JavaScript's truncating
   * remainder and Dafny's agree.
   */
  function NextIndex(current: int, n: nat, forward: bool): (r: nat)
    requires n > 0 && -1 <= current < n
    ensures r < n
    ensures current == -1 ==> r == 0
    ensures 0 <= current ==>
              r == if forward then (if current + 1 < n then current + 1 else 0)
                   else (if current > 0 then current - 1 else n - 1)
  {
    if current == -1 then 0
    else if forward then ModOnce(current + 1, n); (current + 1) % n
    else ModOnce(current - 1 + n, n); (current - 1 + n) % n
  }

  /** Reduction modulo `n` of a value in `[0, 2n)`. */
  lemma ModOnce(x: int, n: int)
    requires 0 < n && 0 <= x < 2 * n
    ensures x % n == if x < n then x else x - n
  {
  }

  /** A step forward followed by a step back, or back then forward, returns to the same card. */
  lemma StepsCancel(current: nat, n: nat)
    requires current < n
    ensures NextIndex(NextIndex(current, n, true), n, false) == current
    ensures NextIndex(NextIndex(current, n, false), n, true) == current
  {
    ModOnce(current + 1, n);
    var f := NextIndex(current, n, true);
    ModOnce(f - 1 + n, n);
    ModOnce(current - 1 + n, n);
    var b := NextIndex(current, n, false);
    ModOnce(b + 1, n);
  }

  /** Navigation wraps around: forward from the last card gives the first, back from the first gives the last. */
  lemma NavigationWraps(n: nat)
    requires n > 0
    ensures NextIndex(n - 1, n, true) == 0
    ensures NextIndex(0, n, false) == n - 1
  {
  }

  /** The gallery's cards and filter buttons. */
  class ProjectGallery {
    /** The `data-category` attribute of each card. */
    const categories: seq<Option<string>>
    /** The `data-filter` attribute of each filter button. */
    const buttonFilters: seq<Option<string>>
    /** Whether each card is displayed. */
    const shown: array<bool>
    /** Whether each filter button carries the `active` class. */
    const activeButtons: array<bool>
    /** `state.currentFilter`. */
    var currentFilter: Option<string>

    ghost predicate Valid()
      reads this
    {
      shown.Length == |categories| && activeButtons.Length == |buttonFilters| && shown != activeButtons
    }

    /** The page as loaded: every card displayed, `initialActive` the button marked active, the filter "all". */
    constructor (categories: seq<Option<string>>, buttonFilters: seq<Option<string>>, initialActive: Option<nat>)
      ensures Valid() && fresh(shown) && fresh(activeButtons)
      ensures this.categories == categories && this.buttonFilters == buttonFilters
      ensures forall i :: 0 <= i < shown.Length ==> shown[i]
      ensures forall k :: 0 <= k < activeButtons.Length ==> activeButtons[k] == (initialActive == Some(k))
      ensures currentFilter == Some("all")
    {
      this.categories := categories;
      this.buttonFilters := buttonFilters;
      shown := new bool[|categories|](_ => true);
      activeButtons := new bool[|buttonFilters|](k => initialActive == Some(k));
      currentFilter := Some("all");
    }

    /** `filterProjects`: each card is displayed exactly when it passes the filter. */
    method FilterProjects(filter: Option<string>)
      requires Valid()
      modifies shown
      ensures forall i :: 0 <= i < shown.Length ==> shown[i] == ShouldShow(filter, categories[i])
    {
      var i := 0;
      while i < shown.Length
        invariant 0 <= i <= shown.Length
        invariant forall k :: 0 <= k < i ==> shown[k] == ShouldShow(filter, categories[k])
      {
        shown[i] := ShouldShow(filter, categories[i]);
        i := i + 1;
      }
    }

    /** `handleFilterClick` on button `button`: it alone becomes active, and its filter is applied and remembered. */
    method HandleFilterClick(button: nat)
      requires Valid() && button < |buttonFilters|
      modifies this, shown, activeButtons
      ensures Valid()
      ensures forall k :: 0 <= k < activeButtons.Length ==> activeButtons[k] == (k == button)
      ensures forall i :: 0 <= i < shown.Length ==> shown[i] == ShouldShow(buttonFilters[button], categories[i])
      ensures currentFilter == buttonFilters[button]
    {
      var filter := buttonFilters[button];
      var k := 0;
      while k < activeButtons.Length
        invariant 0 <= k <= activeButtons.Length
        invariant forall j :: 0 <= j < k ==> !activeButtons[j]
      {
        activeButtons[k] := false;
        k := k + 1;
      }
      activeButtons[button] := true;
      FilterProjects(filter);
      currentFilter := filter;
    }

    /**
     * `navigateProjects`: `focused` is the card holding keyboard focus, if
     * any. Nothing happens without visible cards; otherwise the next (or
     * previous) visible card, cyclically, or the first one when the focus is
     * not on a visible card, gets the focus.
     */
    method NavigateProjects(forward: bool, focused: Option<nat>) returns (focus: Option<nat>)
      requires Valid()
      ensures focus.None? <==> forall i :: 0 <= i < shown.Length ==> !shown[i]
      ensures focus.Some? ==> focus.value < shown.Length && shown[focus.value]
      ensures focus.Some? ==>
                var visible := VisibleCards(shown[..]);
                focus.value == visible[NextIndex(IndexOf(visible, focused), |visible|, forward)]
      ensures focus.Some? && (focused.None? || !(focused.value < shown.Length && shown[focused.value])) ==>
                forall i :: 0 <= i < focus.value ==> !shown[i]
    {
      var visible := VisibleCards(shown[..]);
      if |visible| == 0 {
        return None;
      }
      var currentIndex := IndexOf(visible, focused);
      var next := NextIndex(currentIndex, |visible|, forward);
      focus := Some(visible[next]);
    }
  }
}
