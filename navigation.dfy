/**
 * Navigation-bar highlighting: on scroll (and resize) the link pointing at
 * the section under the probe line becomes the only active one; a click on
 * a link makes that link the only active one.
 */
module Navigation {
  import opened Wrappers

  /** `CONFIG.scrollOffset`: the height of the fixed navigation bar, in pixels. */
  const ScrollOffset: int := 80

  /** A page section's layout box (`offsetTop`, `offsetHeight`) and its `id` attribute. */
  datatype Section = Section(top: int, height: int, id: Option<string>)

  /** The probe line: 50 pixels below the navigation bar. */
  function Probe(scrollY: int): int {
    scrollY + ScrollOffset + 50
  }

  predicate Contains(section: Section, p: int) {
    section.top <= p < section.top + section.height
  }

  /** The template `#${sectionId}`: a missing id renders as "null". */
  function HrefFor(id: Option<string>): (href: string)
    ensures |href| > 0 && href[0] == '#'
    ensures id.Some? ==> href[1..] == id.value
    ensures id.None? ==> href == "#null"
  {
    "#" + id.GetOr("null")
  }

  /** The last section, in document order, that contains `p`; later matches override earlier ones. */
  function LastContaining(sections: seq<Section>, p: int): (r: Option<nat>)
    ensures r.Some? ==> && r.value < |sections| && Contains(sections[r.value], p)
                        && forall k :: r.value < k < |sections| ==> !Contains(sections[k], p)
    ensures r.None? ==> forall k :: 0 <= k < |sections| ==> !Contains(sections[k], p)
  {
    if sections == [] then None
    else if Contains(sections[|sections| - 1], p) then Some(|sections| - 1)
    else LastContaining(sections[..|sections| - 1], p)
  }

  /** Which links are active after the section at position `j` (if any) was matched. */
  ghost predicate ActiveFor(active: seq<bool>, before: seq<bool>, hrefs: seq<Option<string>>, sections: seq<Section>, j: Option<nat>)
    requires |active| == |hrefs|
    requires j.Some? ==> j.value < |sections|
  {
    match j
    case None => active == before
    case Some(s) => forall i :: 0 <= i < |active| ==> active[i] == (hrefs[i] == Some(HrefFor(sections[s].id)))
  }

  /** The `.nav-link` elements. */
  class NavBar {
    /** The `href` attribute of each link. */
    const hrefs: seq<Option<string>>
    /** Whether each link carries the `active` class. */
    const active: array<bool>

    ghost predicate Valid()
      reads this
    {
      active.Length == |hrefs|
    }

    constructor (hrefs: seq<Option<string>>, initialActive: Option<nat>)
      ensures Valid() && fresh(active) && this.hrefs == hrefs
      ensures forall i :: 0 <= i < active.Length ==> active[i] == (initialActive == Some(i))
    {
      this.hrefs := hrefs;
      active := new bool[|hrefs|](i => initialActive == Some(i));
    }

    /** Makes link `link` the only active one (the first half of `handleNavClick`). */
    method MarkOnlyActive(link: nat)
      requires Valid() && link < active.Length
      modifies active
      ensures forall i :: 0 <= i < active.Length ==> active[i] == (i == link)
    {
      var i := 0;
      while i < active.Length
        invariant 0 <= i <= active.Length
        invariant forall k :: 0 <= k < i ==> !active[k]
      {
        active[i] := false;
        i := i + 1;
      }
      active[link] := true;
    }

    /**
     * `updateActiveNavLink`: every section containing the probe line resets
     * the links and activates those pointing at it, so the last such section
     * wins; when none contains it, nothing changes.
     */
    method UpdateActiveNavLink(scrollY: int, sections: seq<Section>)
      requires Valid()
      modifies active
      ensures ActiveFor(active[..], old(active[..]), hrefs, sections, LastContaining(sections, Probe(scrollY)))
    {
      var p := Probe(scrollY);
      var s := 0;
      while s < |sections|
        invariant 0 <= s <= |sections|
        invariant ActiveFor(active[..], old(active[..]), hrefs, sections[..s], LastContaining(sections[..s], p))
      {
        assert sections[..s + 1][..s] == sections[..s];
        if Contains(sections[s], p) {
          var href := HrefFor(sections[s].id);
          var i := 0;
          while i < active.Length
            invariant 0 <= i <= active.Length
            invariant forall k :: 0 <= k < i ==> active[k] == (hrefs[k] == Some(href))
          {
            active[i] := false;
            if hrefs[i] == Some(href) {
              active[i] := true;
            }
            i := i + 1;
          }
        }
        s := s + 1;
      }
      assert sections[..|sections|] == sections;
    }
  }
}
