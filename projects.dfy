/** The projects section: the projects of each category, and the carousel that
    shows one project of a category at a time, with previous/next buttons,
    one navigation dot per project, and the page/direction pair that keys the
    slide animation. */
module ProjectsCarousel {
  import Cyclic

  /** A project stack, reduced to the fields the section's logic reads. */
  datatype Project = Project(id: string, category: string)

  /** `CATEGORIES[0]` and `CATEGORIES[1]`. */
  const AiCategory: string := "AI & Full-Stack Applications"
  const ConnectorCategory: string := "Data Connectors & Tooling"

  // ---------------------------------------------------------------------
  // Category lists

  /** `projects.filter(p => p.category === category)`. */
  function FilterByCategory(ps: seq<Project>, category: string): (r: seq<Project>)
    ensures |r| <= |ps|
    ensures forall i :: 0 <= i < |r| ==> r[i].category == category
    ensures forall p :: p in r <==> p in ps && p.category == category
  {
    if |ps| == 0 then []
    else
      var rest := FilterByCategory(ps[1..], category);
      assert forall p :: p in ps <==> p == ps[0] || p in ps[1..];
      if ps[0].category == category then [ps[0]] + rest else rest
  }

  /** Filtering keeps the original order: filtering a list split in two is
      filtering each half and joining the results. */
  lemma {:induction false} FilterAppend(a: seq<Project>, b: seq<Project>, category: string)
    ensures FilterByCategory(a + b, category) == FilterByCategory(a, category) + FilterByCategory(b, category)
  {
    if |a| == 0 {
      assert a + b == b;
    } else {
      assert (a + b)[0] == a[0];
      assert (a + b)[1..] == a[1..] + b;
      FilterAppend(a[1..], b, category);
    }
  }

  /** Each project of the category is kept as many times as it occurs, and
      no other project is kept. */
  lemma {:induction false} FilterMultiplicity(ps: seq<Project>, category: string, p: Project)
    ensures multiset(FilterByCategory(ps, category))[p]
         == if p.category == category then multiset(ps)[p] else 0
  {
    if |ps| > 0 {
      FilterMultiplicity(ps[1..], category, p);
      assert ps == [ps[0]] + ps[1..];
    }
  }

  /** A list whose projects are all of the category is kept whole, so
      filtering twice is filtering once. */
  lemma {:induction false} FilterKeepsMatching(ps: seq<Project>, category: string)
    requires forall i :: 0 <= i < |ps| ==> ps[i].category == category
    ensures FilterByCategory(ps, category) == ps
  {
    if |ps| > 0 {
      FilterKeepsMatching(ps[1..], category);
      assert ps == [ps[0]] + ps[1..];
    }
  }

  lemma FilterIdempotent(ps: seq<Project>, category: string)
    ensures FilterByCategory(FilterByCategory(ps, category), category) == FilterByCategory(ps, category)
  {
    FilterKeepsMatching(FilterByCategory(ps, category), category);
  }

  /** The two category lists never share a slot of the source list: together
      they hold at most all projects. */
  lemma {:induction false} CategoriesDisjoint(ps: seq<Project>)
    ensures |FilterByCategory(ps, AiCategory)| + |FilterByCategory(ps, ConnectorCategory)| <= |ps|
  {
    if |ps| > 0 {
      CategoriesDisjoint(ps[1..]);
    }
  }

  // ---------------------------------------------------------------------
  // What the carousel shows

  /** One navigation dot per project, the one at the current index active. */
  function Dots(count: nat, currentIndex: int): (dots: seq<bool>)
    ensures |dots| == count
    ensures forall i :: 0 <= i < count ==> (dots[i] <==> i == currentIndex)
  {
    seq(count, i => i == currentIndex)
  }

  function CountActive(dots: seq<bool>): nat
  {
    if |dots| == 0 then 0 else (if dots[0] then 1 else 0) + CountActive(dots[1..])
  }

  lemma {:induction false} CountActiveNone(dots: seq<bool>)
    requires forall i :: 0 <= i < |dots| ==> !dots[i]
    ensures CountActive(dots) == 0
  {
    if |dots| > 0 {
      CountActiveNone(dots[1..]);
    }
  }

  /** A row of dots with exactly one index set has exactly one active dot. */
  lemma {:induction false} CountActiveOne(dots: seq<bool>, k: int)
    requires 0 <= k < |dots|
    requires forall i :: 0 <= i < |dots| ==> (dots[i] <==> i == k)
    ensures CountActive(dots) == 1
  {
    if k == 0 {
      CountActiveNone(dots[1..]);
    } else {
      CountActiveOne(dots[1..], k - 1);
    }
  }

  datatype View =
    | Placeholder
    | Card(current: Project, controls: bool, dots: seq<bool>)

  /** An empty category shows the "no projects yet" placeholder; otherwise
      the current project, and the previous/next buttons and the dots only
      when there is more than one project. */
  function Render(projects: seq<Project>, currentIndex: int): (v: View)
    requires |projects| > 0 ==> 0 <= currentIndex < |projects|
    ensures v.Placeholder? <==> |projects| == 0
    ensures v.Card? ==> v.current == projects[currentIndex]
    ensures v.Card? ==> (v.controls <==> |projects| > 1)
    ensures v.Card? && |projects| > 1 ==> |v.dots| == |projects| && CountActive(v.dots) == 1
    ensures v.Card? ==> forall i :: 0 <= i < |v.dots| ==> (v.dots[i] <==> i == currentIndex)
    ensures v.Card? && |projects| == 1 ==> v.dots == []
  {
    if |projects| == 0 then Placeholder
    else
      if |projects| > 1 then
        var dots := Dots(|projects|, currentIndex);
        CountActiveOne(dots, currentIndex);
        Card(projects[currentIndex], true, dots)
      else
        Card(projects[currentIndex], false, [])
  }

  // ---------------------------------------------------------------------
  // Swipes

  /** `SWIPE_THRESHOLD` (pixels) and `SWIPE_VELOCITY_THRESHOLD`. */
  const SwipeThreshold: real := 30.0
  const SwipeVelocityThreshold: real := 0.3

  /** The swipe power above which a release counts as a fling:
      `SWIPE_THRESHOLD * SWIPE_VELOCITY_THRESHOLD * 100`. */
  const FlingPower: real := SwipeThreshold * SwipeVelocityThreshold * 100.0

  function Abs(x: real): real { if x < 0.0 then -x else x }

  /** `handleDragEnd`'s decision, from the horizontal drag offset and release
      velocity: 1 to page forward, -1 to page back, 0 to stay. A fling is
      judged by `|offset| * velocity`; otherwise a drag longer than the
      threshold pages against its direction of travel. */
  function SwipeDirection(offsetX: real, velocityX: real): (d: int)
    ensures -1 <= d <= 1
  {
    var power := Abs(offsetX) * velocityX;
    if power < -FlingPower then 1
    else if power > FlingPower then -1
    else if offsetX < -SwipeThreshold then 1
    else if offsetX > SwipeThreshold then -1
    else 0
  }

  lemma MulNonPositive(a: real, b: real)
    requires a >= 0.0 && b <= 0.0
    ensures a * b <= 0.0
  {
  }

  lemma MulMonotonic(a: real, b: real, c: real)
    requires a >= 0.0 && b <= c
    ensures a * b <= a * c
  {
    MulNonPositive(a, b - c);
    assert a * (b - c) == a * b - a * c;
  }

  /** Mirroring a swipe mirrors the decision. */
  lemma SwipeMirror(offsetX: real, velocityX: real)
    ensures SwipeDirection(-offsetX, -velocityX) == -SwipeDirection(offsetX, velocityX)
  {
    assert Abs(-offsetX) * -velocityX == -(Abs(offsetX) * velocityX);
  }

  /** A drag past the threshold whose release velocity does not point back
      pages the way it was dragged: leftwards forward, rightwards back. */
  lemma SwipeFollowsDrag(offsetX: real, velocityX: real)
    ensures offsetX < -SwipeThreshold && velocityX <= 0.0 ==> SwipeDirection(offsetX, velocityX) == 1
    ensures offsetX > SwipeThreshold && velocityX >= 0.0 ==> SwipeDirection(offsetX, velocityX) == -1
  {
    if velocityX <= 0.0 {
      MulNonPositive(Abs(offsetX), velocityX);
    } else {
      MulMonotonic(Abs(offsetX), 0.0, velocityX);
    }
  }

  lemma ProductWithin(a: real, v: real)
    requires 0.0 <= a <= 30.0 && -30.0 <= v <= 30.0
    ensures -900.0 <= a * v <= 900.0
  {
    MulMonotonic(a, v, 30.0);
    MulMonotonic(a, -30.0, v);
    assert a * v <= a * 30.0;
    assert a * -30.0 <= a * v;
  }

  /** A drag no longer than the threshold, released no faster than 30 in
      either direction, does nothing. */
  lemma SwipeIgnoresNudge(offsetX: real, velocityX: real)
    requires -SwipeThreshold <= offsetX <= SwipeThreshold
    requires -30.0 <= velocityX <= 30.0
    ensures SwipeDirection(offsetX, velocityX) == 0
  {
    ProductWithin(Abs(offsetX), velocityX);
    assert FlingPower == 900.0;
  }

  // ---------------------------------------------------------------------
  // The carousel's state

  /** One category's carousel: `currentIndex` and the `[page, direction]`
      pair. The handlers exist only once the list is known to be non-empty,
      so every operation below requires a project. */
  class CategoryCarousel {
    const projects: seq<Project>
    var currentIndex: int
    var page: int
    var direction: int

    ghost predicate Valid()
      reads this
    {
      if |projects| == 0 then currentIndex == 0 else 0 <= currentIndex < |projects|
    }

    constructor (projects: seq<Project>)
      ensures Valid()
      ensures this.projects == projects
      ensures currentIndex == 0 && page == 0 && direction == 0
    {
      this.projects := projects;
      currentIndex := 0;
      page, direction := 0, 0;
    }

    /** The project on show. */
    function CurrentProject(): (p: Project)
      reads this
      requires Valid() && |projects| > 0
      ensures p in projects
    {
      projects[currentIndex]
    }

    /** `handleNext`: one project forward, from the last back to the first. */
    method HandleNext()
      requires Valid() && |projects| > 0
      modifies this
      ensures Valid()
      ensures currentIndex == Cyclic.Succ(old(currentIndex), |projects|)
      ensures page == old(page) && direction == old(direction)
    {
      currentIndex := (currentIndex + 1) % |projects|;
    }

    /** `handlePrev`: one project back, from the first round to the last. */
    method HandlePrev()
      requires Valid() && |projects| > 0
      modifies this
      ensures Valid()
      ensures currentIndex == Cyclic.Pred(old(currentIndex), |projects|)
      ensures page == old(page) && direction == old(direction)
    {
      currentIndex := (currentIndex - 1 + |projects|) % |projects|;
    }

    /** `paginate(newDirection)`: a positive direction records the page after
      the current index and moves forward; any other direction, zero
      included, records the unreduced page `currentIndex - 1 + length` and
      moves back. */
    method Paginate(newDirection: int)
      requires Valid() && |projects| > 0
      modifies this
      ensures Valid()
      ensures direction == newDirection
      ensures newDirection > 0 ==>
        page == old(currentIndex) + 1 && currentIndex == Cyclic.Succ(old(currentIndex), |projects|)
      ensures newDirection <= 0 ==>
        page == old(currentIndex) - 1 + |projects| && currentIndex == Cyclic.Pred(old(currentIndex), |projects|)
    {
      if newDirection > 0 {
        page, direction := currentIndex + 1, newDirection;
        HandleNext();
      } else {
        page, direction := currentIndex - 1 + |projects|, newDirection;
        HandlePrev();
      }
    }

    /** `handleDragEnd`: the swipe's decision, carried out by `paginate`. */
    method HandleDragEnd(offsetX: real, velocityX: real)
      requires Valid() && |projects| > 0
      modifies this
      ensures Valid()
      ensures SwipeDirection(offsetX, velocityX) == 0 ==>
        currentIndex == old(currentIndex) && page == old(page) && direction == old(direction)
      ensures SwipeDirection(offsetX, velocityX) == 1 ==>
        && currentIndex == Cyclic.Succ(old(currentIndex), |projects|)
        && page == old(currentIndex) + 1 && direction == 1
      ensures SwipeDirection(offsetX, velocityX) == -1 ==>
        && currentIndex == Cyclic.Pred(old(currentIndex), |projects|)
        && page == old(currentIndex) - 1 + |projects| && direction == -1
    {
      var d := SwipeDirection(offsetX, velocityX);
      if d != 0 {
        Paginate(d);
      }
    }

    /** `goToProject(index)` from a dot: jump to the index, recording it as
      the page; the direction is forward only when the index lies beyond the
      current one, and backward otherwise, also for the current index. */
    method GoToProject(index: int)
      requires Valid() && 0 <= index < |projects|
      modifies this
      ensures Valid()
      ensures currentIndex == index && page == index
      ensures direction == if index > old(currentIndex) then 1 else -1
    {
      var newDirection := if index > currentIndex then 1 else -1;
      page, direction := index, newDirection;
      currentIndex := index;
    }
  }

  /** A client of the carousel: next and then previous come back to the
      project on show. */
  method NextThenPrev(c: CategoryCarousel)
    requires c.Valid() && |c.projects| > 0
    modifies c
    ensures c.Valid() && c.currentIndex == old(c.currentIndex)
  {
    ghost var start := c.currentIndex;
    c.HandleNext();
    c.HandlePrev();
    Cyclic.PredSucc(start, |c.projects|);
  }
}
