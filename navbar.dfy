/** The navigation bar: a "scrolled" flag recomputed from every scroll offset
    against a fixed threshold, and a mobile-menu flag that each click on the
    menu button flips. */
module Navbar {

  import opened Wrappers

  /** Offsets strictly above this many pixels count as scrolled. */
  const ScrollThreshold: real := 10.0

  datatype NavState = NavState(isScrolled: bool, isMobileMenuOpen: bool)

  const InitialNav := NavState(false, false)

  /** The two things the bar reacts to: a scroll event with the window's
      vertical offset at that moment, and a click on the menu button. */
  datatype NavEvent = Scroll(offset: real) | MenuClick

  /** One event changes one flag: a scroll only the scrolled flag, a click
      only the menu flag. */
  function NextNav(s: NavState, e: NavEvent): (r: NavState)
    ensures e.Scroll? ==> r.isMobileMenuOpen == s.isMobileMenuOpen && (r.isScrolled <==> e.offset > ScrollThreshold)
    ensures e.MenuClick? ==> r.isScrolled == s.isScrolled && r.isMobileMenuOpen != s.isMobileMenuOpen
  {
    match e
    case Scroll(y) => s.(isScrolled := y > ScrollThreshold)
    case MenuClick => s.(isMobileMenuOpen := !s.isMobileMenuOpen)
  }

  /** The state after a sequence of events: scrolls alone never move the menu
      flag, clicks alone never move the scrolled flag. */
  function NavAfter(s: NavState, es: seq<NavEvent>): (r: NavState)
    ensures (forall e | e in es :: e.Scroll?) ==> r.isMobileMenuOpen == s.isMobileMenuOpen
    ensures (forall e | e in es :: e.MenuClick?) ==> r.isScrolled == s.isScrolled
    decreases |es|
  {
    if es == [] then s else NavAfter(NextNav(s, es[0]), es[1..])
  }

  /** The offset of the most recent scroll event, if there was one: every
      event after it is a menu click. */
  function LastOffset(es: seq<NavEvent>): (r: Option<real>)
    ensures r.Some? ==>
      exists k :: 0 <= k < |es| && es[k] == Scroll(r.value) &&
        forall j :: k < j < |es| ==> es[j] == MenuClick
    ensures r.None? ==> forall e | e in es :: e == MenuClick
    decreases |es|
  {
    if es == [] then None
    else
      var last := es[|es| - 1];
      if last.Scroll? then Some(last.offset)
      else
        assert es == es[..|es| - 1] + [last];
        LastOffset(es[..|es| - 1])
  }

  /** Number of menu clicks in a sequence of events. */
  function MenuClicks(es: seq<NavEvent>): nat
    decreases |es|
  {
    if es == [] then 0 else (if es[0] == MenuClick then 1 else 0) + MenuClicks(es[1..])
  }

  /** At most one of a scroll and a menu click changes each flag: a scroll
      never touches the menu flag and a click never touches the scroll flag. */
  lemma EventsTouchOneFlag(s: NavState, y: real)
    ensures NextNav(s, Scroll(y)).isMobileMenuOpen == s.isMobileMenuOpen
    ensures NextNav(s, MenuClick).isScrolled == s.isScrolled
    ensures NextNav(s, Scroll(y)).isScrolled <==> y > 10.0
    ensures !NextNav(s, Scroll(10.0)).isScrolled
    ensures NextNav(s, MenuClick).isMobileMenuOpen != s.isMobileMenuOpen
    ensures NextNav(NextNav(s, MenuClick), MenuClick) == s
  {
  }

  lemma {:induction false} NavAfterAppend(s: NavState, es: seq<NavEvent>, e: NavEvent)
    ensures NavAfter(s, es + [e]) == NextNav(NavAfter(s, es), e)
    decreases |es|
  {
    if es != [] {
      assert (es + [e])[1..] == es[1..] + [e];
      NavAfterAppend(NextNav(s, es[0]), es[1..], e);
    }
  }

  /** The scrolled flag depends only on the most recent scroll offset: it is
      set exactly when that offset exceeds the threshold, whatever happened
      before; with no scroll yet it keeps its starting value. */
  lemma {:induction false} ScrolledFollowsLastOffset(s: NavState, es: seq<NavEvent>)
    ensures NavAfter(s, es).isScrolled ==
      match LastOffset(es)
      case None => s.isScrolled
      case Some(y) => y > ScrollThreshold
    decreases |es|
  {
    if es != [] {
      var init, last := es[..|es| - 1], es[|es| - 1];
      assert es == init + [last];
      NavAfterAppend(s, init, last);
      ScrolledFollowsLastOffset(s, init);
    }
  }

  /** The menu flag is the starting value flipped once per menu click; scroll
      events play no part. */
  lemma {:induction false} MenuFollowsClickParity(s: NavState, es: seq<NavEvent>)
    ensures NavAfter(s, es).isMobileMenuOpen == (s.isMobileMenuOpen != (MenuClicks(es) % 2 == 1))
    decreases |es|
  {
    if es != [] {
      MenuFollowsClickParity(NextNav(s, es[0]), es[1..]);
    }
  }

  /** From the initial state, the mobile menu is open (and its panel rendered)
      after a sequence of events exactly when it held an odd number of menu
      clicks. */
  lemma MenuOpenAfter(es: seq<NavEvent>)
    ensures NavAfter(InitialNav, es).isMobileMenuOpen <==> MenuClicks(es) % 2 == 1
  {
    MenuFollowsClickParity(InitialNav, es);
  }

  /** The scrolled flag after each offset of a sequence of scroll events. */
  function ScrolledTrace(s: NavState, offsets: seq<real>): (trace: seq<bool>)
    ensures |trace| == |offsets|
    ensures forall k :: 0 <= k < |offsets| ==> trace[k] == (offsets[k] > ScrollThreshold)
    decreases |offsets|
  {
    if offsets == [] then []
    else
      var next := NextNav(s, Scroll(offsets[0]));
      [next.isScrolled] + ScrolledTrace(next, offsets[1..])
  }

  /** Offsets 0, 5, 15, 8, 2: scrolled only at 15; the flag drops again at 8,
      which is not above the threshold. */
  lemma SampleScrollTrace()
    ensures ScrolledTrace(InitialNav, [0.0, 5.0, 15.0, 8.0, 2.0]) == [false, false, true, false, false]
  {
  }

  /** The bar's state. */
  class NavbarState {
    var isScrolled: bool
    var isMobileMenuOpen: bool

    function State(): NavState
      reads this
    {
      NavState(isScrolled, isMobileMenuOpen)
    }

    constructor ()
      ensures State() == InitialNav
    {
      isScrolled, isMobileMenuOpen := false, false;
    }

    /** `handleScroll`, given the window's vertical offset. */
    method HandleScroll(scrollY: real)
      modifies this
      ensures State() == NextNav(old(State()), Scroll(scrollY))
      ensures isScrolled == (scrollY > ScrollThreshold) && isMobileMenuOpen == old(isMobileMenuOpen)
    {
      if scrollY > ScrollThreshold {
        isScrolled := true;
      } else {
        isScrolled := false;
      }
    }

    /** The menu button's click handler. */
    method ToggleMobileMenu()
      modifies this
      ensures State() == NextNav(old(State()), MenuClick)
      ensures isMobileMenuOpen == !old(isMobileMenuOpen) && isScrolled == old(isScrolled)
    {
      isMobileMenuOpen := !isMobileMenuOpen;
    }
  }
}
