/** The testimonial carousel: an index into a fixed list of testimonials that an
    interval timer advances cyclically and that the navigation dots set
    directly. */
module TestimonialsSection {

  datatype Testimonial = Testimonial(id: int, content: string, author: string, position: string, company: string)

  /** The number of testimonials the section ships with. */
  const TestimonialCount: nat := 4

  /** One timer tick: the next index, wrapping from the last to the first. */
  function NextIndex(prev: nat, n: nat): (r: nat)
    requires n > 0
    ensures r < n
    ensures prev < n ==> r == if prev + 1 == n then 0 else prev + 1
  {
    (prev + 1) % n
  }

  /** The index after k timer ticks with no dot clicks in between. */
  function Ticks(i: nat, n: nat, k: nat): (r: nat)
    requires n > 0
    ensures i < n ==> r < n
    decreases k
  {
    if k == 0 then i else NextIndex(Ticks(i, n, k - 1), n)
  }

  /** Up to a full cycle, k ticks move the index k places forward, wrapping
      past the end of the list at most once. */
  lemma {:induction false} TicksRotate(i: nat, n: nat, k: nat)
    requires i < n && k <= n
    ensures Ticks(i, n, k) == if i + k < n then i + k else i + k - n
    decreases k
  {
    if k > 0 {
      TicksRotate(i, n, k - 1);
    }
  }

  /** Ticking a then b times is ticking a + b times. */
  lemma {:induction false} TicksCompose(i: nat, n: nat, a: nat, b: nat)
    requires n > 0
    ensures Ticks(Ticks(i, n, a), n, b) == Ticks(i, n, a + b)
    decreases b
  {
    if b > 0 {
      TicksCompose(i, n, a, b - 1);
    }
  }

  /** After as many ticks as there are testimonials the index is back where it
      started. */
  lemma FullCycle(i: nat, n: nat)
    requires i < n
    ensures Ticks(i, n, n) == i
  {
    TicksRotate(i, n, n);
  }

  /** The rotation is periodic in the length of the list. */
  lemma Periodic(i: nat, n: nat, k: nat)
    requires i < n
    ensures Ticks(i, n, k + n) == Ticks(i, n, k)
  {
    TicksCompose(i, n, k, n);
    FullCycle(Ticks(i, n, k), n);
  }

  /** With the four shipped testimonials and the initial index 0: three ticks
      show the last one, the fourth tick wraps to the first. */
  lemma FourTestimonialsWrap()
    ensures Ticks(0, TestimonialCount, 3) == 3
    ensures Ticks(0, TestimonialCount, 4) == 0
    ensures NextIndex(3, TestimonialCount) == 0
  {
  }

  /** What can change the index: a timer tick, or a click on the dot at a
      position of the list. */
  datatype RotatorEvent = Tick | DotClick(index: int)

  predicate DotsInRange(es: seq<RotatorEvent>, n: nat) {
    forall k :: 0 <= k < |es| && es[k].DotClick? ==> 0 <= es[k].index < n
  }

  /** One event: the index stays in range, and a dot click lands on its dot. */
  function Step(i: nat, n: nat, e: RotatorEvent): (r: nat)
    requires n > 0
    requires e.DotClick? ==> 0 <= e.index < n
    ensures r < n
    ensures e.DotClick? ==> r == e.index
  {
    match e
    case Tick => NextIndex(i, n)
    case DotClick(j) => j
  }

  /** The index after any mix of ticks and dot clicks stays a valid position of
      the list, so the displayed testimonial is always in bounds. */
  function After(i: nat, n: nat, es: seq<RotatorEvent>): (r: nat)
    requires i < n
    requires DotsInRange(es, n)
    ensures r < n
    decreases |es|
  {
    if es == [] then i else After(Step(i, n, es[0]), n, es[1..])
  }

  /** A dot click lands on that dot whatever came before, so the index after a
      sequence ending in a dot click is that dot's index. */
  lemma {:induction false} LastDotWins(i: nat, n: nat, es: seq<RotatorEvent>, j: nat)
    requires i < n && j < n
    requires DotsInRange(es, n)
    ensures DotsInRange(es + [DotClick(j)], n)
    ensures After(i, n, es + [DotClick(j)]) == j
    decreases |es|
  {
    var es' := es + [DotClick(j)];
    if es == [] {
      assert es'[1..] == [];
    } else {
      assert es'[1..] == es[1..] + [DotClick(j)];
      LastDotWins(Step(i, n, es[0]), n, es[1..], j);
    }
  }

  /** The carousel's state: the fixed list and the index of the testimonial on
      show. */
  class TestimonialRotator {
    const items: seq<Testimonial>
    var current: int

    ghost predicate Valid()
      reads this
    {
      0 <= current < |items|
    }

    /** The section's list is a non-empty constant; the index starts at 0. */
    constructor (items: seq<Testimonial>)
      requires |items| > 0
      ensures this.items == items && current == 0
      ensures Valid()
    {
      this.items := items;
      current := 0;
    }

    /** The testimonial on show. */
    function Shown(): (t: Testimonial)
      reads this
      requires Valid()
      ensures t in items
    {
      items[current]
    }

    /** The interval callback. */
    method Tick()
      requires Valid()
      modifies this
      ensures Valid()
      ensures current == NextIndex(old(current), |items|)
    {
      current := (current + 1) % |items|;
    }

    /** A click on the dot at position `index` of the list. */
    method ClickDot(index: int)
      requires Valid() && 0 <= index < |items|
      modifies this
      ensures Valid()
      ensures current == index
    {
      current := index;
    }
  }
}
