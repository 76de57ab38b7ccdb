/**
 * The reveal-on-scroll controller. The intersection observer delivers
 * batches of (element, isIntersecting) entries; the first time an element
 * is seen intersecting it gets its "animated" treatment, and the set of
 * animated elements makes sure that happens at most once per element.
 */
module Reveal {
  import opened Wrappers

  /** The identity of a page element (the observer's `entry.target`). */
  type ElementId = nat

  /**
   * A watched element: its identity, its class list, and the `data-width`
   * attribute of each `.skill-progress` bar inside it, in document order.
   */
  datatype Element = Element(id: ElementId, classes: set<string>, barWidths: seq<Option<string>>)

  /** One intersection-observer entry. */
  datatype Entry = Entry(target: Element, isIntersecting: bool)

  /** A presentation change `animateElement` makes, with the delay (ms) it is scheduled after. */
  datatype Effect =
    | AddAnimatedClass(element: ElementId)
    | SetBarWidth(element: ElementId, bar: nat, width: string, delay: nat)
    | ShowFloatingCard(card: nat, delay: nat)

  /** `bar.getAttribute('data-width') || '0'`: the attribute text, or "0" when it is missing or empty. */
  function BarLevel(attr: Option<string>): (level: string)
    ensures level != ""
    ensures attr.Some? && attr.value != "" ==> level == attr.value
    ensures attr.None? || attr.value == "" ==> level == "0"
  {
    match attr
    case Some(s) => if s == "" then "0" else s
    case None => "0"
  }

  /** `animateSkillBars`: each bar's width becomes its level followed by '%', staggered by 200 ms per bar. */
  function SkillBarEffects(el: Element): (effects: seq<Effect>)
    ensures |effects| == |el.barWidths|
    ensures forall i :: 0 <= i < |effects| ==>
              effects[i] == SetBarWidth(el.id, i, BarLevel(el.barWidths[i]) + "%", 200 * i)
  {
    seq(|el.barWidths|, i requires 0 <= i < |el.barWidths| =>
      SetBarWidth(el.id, i, BarLevel(el.barWidths[i]) + "%", 200 * i))
  }

  /** `animateFloatingCards`: the page's floating cards appear one after another, 300 ms apart. */
  function FloatingCardEffects(cards: nat): (effects: seq<Effect>)
    ensures |effects| == cards
    ensures forall i :: 0 <= i < cards ==> effects[i] == ShowFloatingCard(i, 300 * i)
  {
    seq(cards, i requires 0 <= i < cards => ShowFloatingCard(i, 300 * i))
  }

  /**
   * `animateElement`: the "animated" class first, then the skill-bar fill for
   * a skill category, then the floating cards for the hero visual.
   */
  function AnimateElement(el: Element, floatingCards: nat): (effects: seq<Effect>)
    ensures |effects| > 0 && effects[0] == AddAnimatedClass(el.id)
    ensures forall e :: e in effects && e.AddAnimatedClass? ==> e.element == el.id
    ensures (exists e :: e in effects && e.SetBarWidth?) ==> "skill-category" in el.classes
    ensures (exists e :: e in effects && e.ShowFloatingCard?) ==> "hero-visual" in el.classes
    // a skill category gets its bar fills, the hero visual its floating cards
    ensures "skill-category" in el.classes ==> forall e :: e in SkillBarEffects(el) ==> e in effects
    ensures "hero-visual" in el.classes ==> forall e :: e in FloatingCardEffects(floatingCards) ==> e in effects
    // and no other bar width or card is applied
    ensures forall e :: e in effects && e.SetBarWidth? ==> e in SkillBarEffects(el)
    ensures forall e :: e in effects && e.ShowFloatingCard? ==> e in FloatingCardEffects(floatingCards)
  {
    [AddAnimatedClass(el.id)]
    + (if "skill-category" in el.classes then SkillBarEffects(el) else [])
    + (if "hero-visual" in el.classes then FloatingCardEffects(floatingCards) else [])
  }

  /** The effects of animating `runs`, in order. */
  function AllEffects(runs: seq<Element>, floatingCards: nat): seq<Effect>
  {
    if runs == [] then [] else AnimateElement(runs[0], floatingCards) + AllEffects(runs[1..], floatingCards)
  }

  /** The identities of a list of elements. */
  function Ids(els: seq<Element>): set<ElementId> {
    if els == [] then {} else {els[0].id} + Ids(els[1..])
  }

  /** An identity is among `Ids(els)` exactly when some element of `els` carries it. */
  lemma {:induction false} IdsMember(els: seq<Element>, x: ElementId)
    ensures x in Ids(els) <==> exists k :: 0 <= k < |els| && els[k].id == x
    decreases |els|
  {
    if els != [] {
      IdsMember(els[1..], x);
      if x in Ids(els[1..]) {
        var k :| 0 <= k < |els[1..]| && els[1..][k].id == x;
        assert els[k + 1].id == x;
      }
      if exists k :: 0 <= k < |els| && els[k].id == x {
        var k :| 0 <= k < |els| && els[k].id == x;
        if k > 0 {
          assert els[1..][k - 1].id == x;
        }
      }
    }
  }

  /** What a batch of entries does: the new animated set, and the elements animated, in order. */
  datatype Outcome = Outcome(animated: set<ElementId>, runs: seq<Element>)

  /** The observer callback over one batch of entries, processed in order. */
  function Deliver(animated: set<ElementId>, entries: seq<Entry>): (o: Outcome)
    ensures animated <= o.animated
    ensures |o.runs| <= |entries|
    decreases |entries|
  {
    if entries == [] then
      Outcome(animated, [])
    else
      var e := entries[0];
      if e.isIntersecting && e.target.id !in animated then
        var o := Deliver(animated + {e.target.id}, entries[1..]);
        Outcome(o.animated, [e.target] + o.runs)
      else
        Deliver(animated, entries[1..])
  }

  /**
   * What one batch guarantees: the set only grows, and by exactly the
   * elements animated; an element is animated only if an entry shows it
   * intersecting and it was not animated before; no element is animated
   * twice; every element seen intersecting ends up in the set.
   */
  lemma {:induction false} DeliverSound(animated: set<ElementId>, entries: seq<Entry>)
    ensures var o := Deliver(animated, entries);
            && o.animated == animated + Ids(o.runs)
            && (forall k :: 0 <= k < |o.runs| ==> Entry(o.runs[k], true) in entries && o.runs[k].id !in animated)
            && (forall j, k :: 0 <= j < k < |o.runs| ==> o.runs[j].id != o.runs[k].id)
            && (forall e :: e in entries && e.isIntersecting ==> e.target.id in o.animated)
    decreases |entries|
  {
    if entries != [] {
      var e := entries[0];
      assert forall x :: x in entries[1..] ==> x in entries;
      if e.isIntersecting && e.target.id !in animated {
        var o := Deliver(animated + {e.target.id}, entries[1..]);
        DeliverSound(animated + {e.target.id}, entries[1..]);
        assert ([e.target] + o.runs)[1..] == o.runs;
        forall k | 0 < k < |o.runs| + 1
          ensures e.target.id != ([e.target] + o.runs)[k].id
        {
          assert ([e.target] + o.runs)[k] == o.runs[k - 1];
        }
      } else {
        DeliverSound(animated, entries[1..]);
      }
    }
  }

  /** A batch in which every intersecting element is already animated changes nothing. */
  lemma {:induction false} DeliverSeen(animated: set<ElementId>, entries: seq<Entry>)
    requires forall e :: e in entries && e.isIntersecting ==> e.target.id in animated
    ensures Deliver(animated, entries) == Outcome(animated, [])
    decreases |entries|
  {
    if entries != [] {
      assert forall e :: e in entries[1..] ==> e in entries;
      DeliverSeen(animated, entries[1..]);
    }
  }

  /** Delivering the same batch again is a no-op: re-delivered events change nothing. */
  lemma Redeliver(animated: set<ElementId>, entries: seq<Entry>)
    ensures var o := Deliver(animated, entries);
            Deliver(o.animated, entries) == Outcome(o.animated, [])
  {
    DeliverSound(animated, entries);
    DeliverSeen(Deliver(animated, entries).animated, entries);
  }

  /** Over two batches, no element is animated twice: the second batch animates none of the first's. */
  lemma AtMostOnceAcrossBatches(animated: set<ElementId>, first: seq<Entry>, second: seq<Entry>)
    ensures var o1 := Deliver(animated, first);
            var o2 := Deliver(o1.animated, second);
            Ids(o1.runs) !! Ids(o2.runs) && animated !! Ids(o2.runs)
  {
    var o1 := Deliver(animated, first);
    var o2 := Deliver(o1.animated, second);
    DeliverSound(animated, first);
    DeliverSound(o1.animated, second);
    forall x | x in Ids(o2.runs)
      ensures x !in o1.animated
    {
      IdsMember(o2.runs, x);
    }
  }

  /** One entry of a batch: what it adds to the set and to the effects, ahead of the entries after it. */
  lemma DeliverAt(animated: set<ElementId>, effects: seq<Effect>, entries: seq<Entry>, i: nat, floatingCards: nat)
    requires i < |entries|
    ensures var e := entries[i];
            var isNew := e.isIntersecting && e.target.id !in animated;
            var next := if isNew then animated + {e.target.id} else animated;
            var applied := if isNew then effects + AnimateElement(e.target, floatingCards) else effects;
            && Deliver(animated, entries[i..]).animated == Deliver(next, entries[i + 1..]).animated
            && effects + AllEffects(Deliver(animated, entries[i..]).runs, floatingCards)
               == applied + AllEffects(Deliver(next, entries[i + 1..]).runs, floatingCards)
  {
    var e := entries[i];
    assert entries[i..][0] == e && entries[i..][1..] == entries[i + 1..];
    if e.isIntersecting && e.target.id !in animated {
      var o := Deliver(animated + {e.target.id}, entries[i + 1..]);
      assert ([e.target] + o.runs)[0] == e.target && ([e.target] + o.runs)[1..] == o.runs;
    }
  }

  /** The controller that `initializeScrollAnimations` sets up. */
  class RevealController {
    /** The number of `.floating-card` elements on the page. */
    const floatingCards: nat
    /** `state.animatedElements`. */
    var animatedElements: set<ElementId>
    /** The presentation changes applied so far, in order. */
    var effects: seq<Effect>

    constructor (floatingCards: nat)
      ensures this.floatingCards == floatingCards
      ensures animatedElements == {} && effects == []
    {
      this.floatingCards := floatingCards;
      animatedElements := {};
      effects := [];
    }

    /** The observer callback for one batch of entries. */
    method OnIntersection(entries: seq<Entry>)
      modifies this
      ensures old(animatedElements) <= animatedElements
      ensures animatedElements == Deliver(old(animatedElements), entries).animated
      ensures effects == old(effects) + AllEffects(Deliver(old(animatedElements), entries).runs, floatingCards)
    {
      ghost var start := animatedElements;
      var i := 0;
      while i < |entries|
        invariant 0 <= i <= |entries|
        invariant Deliver(animatedElements, entries[i..]).animated == Deliver(old(animatedElements), entries).animated
        invariant effects + AllEffects(Deliver(animatedElements, entries[i..]).runs, floatingCards)
                  == old(effects) + AllEffects(Deliver(old(animatedElements), entries).runs, floatingCards)
      {
        var entry := entries[i];
        DeliverAt(animatedElements, effects, entries, i, floatingCards);
        if entry.isIntersecting && entry.target.id !in animatedElements {
          effects := effects + AnimateElement(entry.target, floatingCards);
          animatedElements := animatedElements + {entry.target.id};
        }
        i := i + 1;
      }
      DeliverSound(start, entries);
    }
  }
}
