/**
 * The role-text typewriter of the hero banner: a tick-driven state machine
 * that types one role string character by character, then deletes it, then
 * moves on to the next role, forever. One call of `TypeRole` is one timer
 * tick; the delays between ticks carry no logic and are not modelled.
 */
module Typewriter {

  /** The roles the page cycles through, in display order. */
  const SourceRoles: seq<string> := [
    "Desarrollador Backend",
    "Especialista en APIs",
    "Arquitecto de Software",
    "Desarrollador Full Stack"
  ]

  /** The typewriter's part of the page state, plus the text it displays. */
  datatype TypeState = TypeState(typingIndex: int, isDeleting: bool, currentRole: int, text: string)

  /** The state the page starts in, with `text` whatever the markup holds. */
  function Start(role: int, text: string): TypeState {
    TypeState(0, false, role, text)
  }

  /** JavaScript's `s.substring(0, end)`: the end index is clamped into `[0, |s|]`. */
  function Prefix(s: string, end: int): (r: string)
    ensures r <= s
    ensures |r| == if end < 0 then 0 else if end > |s| then |s| else end
  {
    if end <= 0 then "" else if end >= |s| then s else s[..end]
  }

  /** The list of roles can be cycled through: it is non-empty and no role is empty. */
  predicate RolesOk(roles: seq<string>) {
    |roles| > 0 && forall k :: 0 <= k < |roles| ==> |roles[k]| > 0
  }

  /**
   * The invariant the typewriter keeps: the role index is in range; while
   * typing, the cursor is before the end of the role; while deleting, it is
   * after its start.
   */
  predicate Consistent(roles: seq<string>, s: TypeState) {
    && 0 <= s.currentRole < |roles|
    && var n := |roles[s.currentRole]|;
       if s.isDeleting then 1 <= s.typingIndex <= n else 0 <= s.typingIndex < n
  }

  /** The displayed text is the prefix of the active role that the cursor delimits. */
  predicate Shows(roles: seq<string>, s: TypeState)
    requires 0 <= s.currentRole < |roles|
  {
    0 <= s.typingIndex <= |roles[s.currentRole]| && s.text == roles[s.currentRole][..s.typingIndex]
  }

  /** One tick of `typeRole`. */
  function Step(roles: seq<string>, s: TypeState): (t: TypeState)
    requires 0 <= s.currentRole < |roles|
    ensures 0 <= t.currentRole < |roles|
    // the cursor moves by exactly one character per tick
    ensures t.typingIndex == if s.isDeleting then s.typingIndex - 1 else s.typingIndex + 1
    // the role changes only when a deletion reaches the start, and then to the next role
    ensures t.currentRole != s.currentRole ==>
              s.isDeleting && t.typingIndex == 0 && t.currentRole == (s.currentRole + 1) % |roles|
    ensures s.isDeleting && s.typingIndex == 1 ==> t.currentRole == (s.currentRole + 1) % |roles|
    // deleting starts exactly when typing reaches the end of the role
    ensures !s.isDeleting ==> (t.isDeleting <==> t.typingIndex == |roles[s.currentRole]|)
    // typing resumes exactly when deleting reaches the start
    ensures s.isDeleting ==> (!t.isDeleting <==> t.typingIndex == 0)
    // with well-formed roles the invariant is kept and the display matches the cursor
    ensures RolesOk(roles) && Consistent(roles, s) ==> Consistent(roles, t) && Shows(roles, t)
  {
    var role := roles[s.currentRole];
    if !s.isDeleting then
      var i := s.typingIndex + 1;
      TypeState(i, i == |role|, s.currentRole, Prefix(role, s.typingIndex + 1))
    else
      var i := s.typingIndex - 1;
      if i == 0 then
        TypeState(0, false, (s.currentRole + 1) % |roles|, Prefix(role, s.typingIndex - 1))
      else
        TypeState(i, true, s.currentRole, Prefix(role, s.typingIndex - 1))
  }

  /** `n` consecutive ticks. */
  function Run(roles: seq<string>, s: TypeState, n: nat): (t: TypeState)
    requires 0 <= s.currentRole < |roles|
    ensures 0 <= t.currentRole < |roles|
    decreases n
  {
    if n == 0 then s else Run(roles, Step(roles, s), n - 1)
  }

  /** Running `a` ticks and then `b` ticks is running `a + b` ticks. */
  lemma {:induction false} RunAdd(roles: seq<string>, s: TypeState, a: nat, b: nat)
    requires 0 <= s.currentRole < |roles|
    ensures Run(roles, s, a + b) == Run(roles, Run(roles, s, a), b)
    decreases a
  {
    if a > 0 {
      RunAdd(roles, Step(roles, s), a - 1, b);
    }
  }

  /** After any positive number of ticks the invariant holds and the display matches the cursor. */
  lemma {:induction false} RunShows(roles: seq<string>, s: TypeState, n: nat)
    requires RolesOk(roles) && Consistent(roles, s) && n > 0
    ensures Consistent(roles, Run(roles, s, n)) && Shows(roles, Run(roles, s, n))
    decreases n
  {
    if n > 1 {
      RunShows(roles, Step(roles, s), n - 1);
    }
  }

  /** From any typing state, the rest of the role is typed in as many ticks as characters remain. */
  lemma {:induction false} TypePhase(roles: seq<string>, s: TypeState)
    requires RolesOk(roles) && Consistent(roles, s) && !s.isDeleting
    ensures var role := roles[s.currentRole];
            Run(roles, s, |role| - s.typingIndex) == TypeState(|role|, true, s.currentRole, role)
    decreases |roles[s.currentRole]| - s.typingIndex
  {
    var role := roles[s.currentRole];
    var t := Step(roles, s);
    if s.typingIndex + 1 < |role| {
      TypePhase(roles, t);
    } else {
      assert Run(roles, t, 0) == t;
    }
  }

  /** From any deleting state, the role is erased in as many ticks as the cursor position, and the next role becomes active. */
  lemma {:induction false} DeletePhase(roles: seq<string>, s: TypeState)
    requires RolesOk(roles) && Consistent(roles, s) && s.isDeleting
    ensures Run(roles, s, s.typingIndex) == Start((s.currentRole + 1) % |roles|, "")
    decreases s.typingIndex
  {
    var t := Step(roles, s);
    if s.typingIndex > 1 {
      DeletePhase(roles, t);
    } else {
      assert Run(roles, t, 0) == t;
    }
  }

  /** A full type-and-delete cycle of role `r` takes twice its length and activates role `r + 1` (cyclically) with an empty display. */
  lemma FullCycle(roles: seq<string>, r: int, text: string)
    requires RolesOk(roles) && 0 <= r < |roles|
    ensures Run(roles, Start(r, text), 2 * |roles[r]|) == Start((r + 1) % |roles|, "")
  {
    var n := |roles[r]|;
    var s := Start(r, text);
    TypePhase(roles, s);
    RunAdd(roles, s, n, n);
    DeletePhase(roles, Run(roles, s, n));
  }

  /** The number of ticks taken by `k` full cycles starting at role `r`. */
  function CycleTicks(roles: seq<string>, r: int, k: nat): nat
    requires |roles| > 0 && 0 <= r < |roles|
    decreases k
  {
    if k == 0 then 0 else 2 * |roles[r]| + CycleTicks(roles, (r + 1) % |roles|, k - 1)
  }

  /** The role index reached from `r` after `k` advances of `(r + 1) % n`. */
  function RoleAfter(r: int, k: nat, n: int): int
    requires 0 <= r < n
    decreases k
  {
    if k == 0 then r else RoleAfter((r + 1) % n, k - 1, n)
  }

  /** The next role index, `(r + 1) % n`, is `r + 1`, or 0 after the last role. */
  lemma NextRole(r: int, n: int)
    requires 0 <= r < n
    ensures (r + 1) % n == if r + 1 < n then r + 1 else 0
  {
  }

  /** Up to one full turn, advancing `k` roles is adding `k` and wrapping once. */
  lemma {:induction false} RoleAfterWraps(r: int, k: nat, n: int)
    requires 0 <= r < n && k <= n
    ensures RoleAfter(r, k, n) == if r + k < n then r + k else r + k - n
    decreases k
  {
    if k > 0 {
      NextRole(r, n);
      if r + 1 < n {
        RoleAfterWraps(r + 1, k - 1, n);
      } else {
        RoleAfterWraps(0, k - 1, n);
      }
    }
  }

  /** After `k` full cycles the active role is the one `k` advances further on. */
  lemma {:induction false} Cycles(roles: seq<string>, r: int, text: string, k: nat)
    requires RolesOk(roles) && 0 <= r < |roles|
    ensures Run(roles, Start(r, text), CycleTicks(roles, r, k)) == Start(RoleAfter(r, k, |roles|), if k == 0 then text else "")
    decreases k
  {
    if k > 0 {
      var r' := (r + 1) % |roles|;
      var s := Start(r, text);
      var a := 2 * |roles[r]|;
      var b := CycleTicks(roles, r', k - 1);
      assert CycleTicks(roles, r, k) == a + b;
      FullCycle(roles, r, text);
      RunAdd(roles, s, a, b);
      Cycles(roles, r', "", k - 1);
    }
  }

  /** After one full cycle per role, the starting role is active again. */
  lemma RolesComeBack(roles: seq<string>, r: int, text: string)
    requires RolesOk(roles) && 0 <= r < |roles|
    ensures Run(roles, Start(r, text), CycleTicks(roles, r, |roles|)) == Start(r, "")
  {
    Cycles(roles, r, text, |roles|);
    RoleAfterWraps(r, |roles|, |roles|);
  }

  /**
   * The code has no case for an empty role: the cursor moves past it, the
   * end-of-role test never fires, and typing goes on forever without
   * deleting or changing role. This is why `RolesOk` demands non-empty roles.
   */
  lemma {:induction false} EmptyRoleNeverEnds(roles: seq<string>, s: TypeState, n: nat)
    requires 0 <= s.currentRole < |roles| && roles[s.currentRole] == ""
    requires !s.isDeleting && s.typingIndex >= 0
    ensures var t := Run(roles, s, n);
            && !t.isDeleting && t.currentRole == s.currentRole
            && t.typingIndex == s.typingIndex + n
            && (n > 0 ==> t.text == "")
    decreases n
  {
    if n > 0 {
      EmptyRoleNeverEnds(roles, Step(roles, s), n - 1);
    }
  }

  /** With roles "A" and "BB", six ticks display "A", "", "B", "BB", "B", "" and return to the start. */
  lemma TwoRoleScenario(text: string)
    ensures var roles := ["A", "BB"];
            var s := Start(0, text);
            && Run(roles, s, 1).text == "A"
            && Run(roles, s, 2).text == ""
            && Run(roles, s, 3).text == "B"
            && Run(roles, s, 4).text == "BB"
            && Run(roles, s, 5).text == "B"
            && Run(roles, s, 6) == Start(0, "")
  {
  }

  /** The configured role list can be cycled through. */
  lemma SourceRolesOk()
    ensures RolesOk(SourceRoles)
  {
  }

  /** The typewriter bound to the `.role-highlight` element. */
  class RoleTypewriter {
    const roles: seq<string>
    var typingIndex: int
    var isDeleting: bool
    var currentRole: int
    /** The element's text content. */
    var text: string

    function State(): TypeState
      reads this
    {
      TypeState(typingIndex, isDeleting, currentRole, text)
    }

    ghost predicate Valid()
      reads this
    {
      RolesOk(roles) && Consistent(roles, State())
    }

    /** `initializeTypingEffect` for an element found on the page, holding `initialText`. */
    constructor (roles: seq<string>, initialText: string)
      requires RolesOk(roles)
      ensures Valid() && this.roles == roles
      ensures State() == Start(0, initialText)
    {
      this.roles := roles;
      typingIndex, isDeleting, currentRole := 0, false, 0;
      text := initialText;
    }

    /** One tick of `typeRole`. */
    method TypeRole()
      requires Valid()
      modifies this
      ensures Valid()
      ensures State() == Step(roles, old(State()))
      ensures text == roles[currentRole][..typingIndex]
    {
      var currentRoleText := roles[currentRole];
      if !isDeleting {
        text := Prefix(currentRoleText, typingIndex + 1);
        typingIndex := typingIndex + 1;
        if typingIndex == |currentRoleText| {
          isDeleting := true;
          return;
        }
      } else {
        text := Prefix(currentRoleText, typingIndex - 1);
        typingIndex := typingIndex - 1;
        if typingIndex == 0 {
          isDeleting := false;
          currentRole := (currentRole + 1) % |roles|;
          return;
        }
      }
    }
  }
}
