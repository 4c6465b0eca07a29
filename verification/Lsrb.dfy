/** The maze robot of main.c: what it logs on its way through a maze, keeping left, and
    the stack that turns the log into the direct route. */
module Lsrb {

  const SIZE := 100

  // enum direction
  const STRAIGHT := 1
  const BACK := 2
  const LEFT := 3
  const RIGHT := 4

  // ---------- the maze ----------

  // Seen from the robot as it first comes in; a Wall is where no line leads on.
  // Bends, which it follows without logging, are part of the line.
  datatype Maze = Wall | DeadEnd | Goal | Branch(left: Maze, straight: Maze, right: Maze)

  // The sides of a junction: 0 is the one the robot first came from.
  type Side = d: int | 0 <= d < 4

  function Way(m: Maze, d: Side): Maze
    requires m.Branch? && d > 0
  {
    if d == 1 then m.left else if d == 2 then m.straight else m.right
  }

  predicate Open(m: Maze, d: Side)
    requires m.Branch?
  {
    d == 0 || Way(m, d) != Wall
  }

  // A junction has at least two ways on; with one it would be a bend.
  predicate Proper(m: Maze) {
    match m
    case Wall => false
    case DeadEnd => true
    case Goal => true
    case Branch(l, s, r) =>
      && (l == Wall || Proper(l)) && (s == Wall || Proper(s)) && (r == Wall || Proper(r))
      && (if l == Wall then s != Wall && r != Wall else s != Wall || r != Wall)
  }

  predicate HasGoal(m: Maze) {
    match m
    case Goal => true
    case Branch(l, s, r) => HasGoal(l) || HasGoal(s) || HasGoal(r)
    case _ => false
  }

  function Goals(m: Maze): nat {
    match m
    case Goal => 1
    case Branch(l, s, r) => Goals(l) + Goals(s) + Goals(r)
    case _ => 0
  }

  // ---------- the way through it ----------

  // Making k quarter turns clockwise from the side behind it, where it came from.
  function Turn(k: int): int
    requires 1 <= k <= 3
  {
    if k == 1 then LEFT else if k == 2 then STRAIGHT else RIGHT
  }

  function Facing(d: Side, k: int): Side
    requires 0 <= k <= 3
  {
    (d + k) % 4
  }

  // Standing at a junction with side d behind it, the robot prefers left to straight
  // and straight to right.  So it never turns into a way it has been in before: the
  // side it turns to is a later one, or the way out.
  function Choice(m: Maze, d: Side): (k: int)
    requires m.Branch? && Proper(m)
    ensures 1 <= k <= 3 && Open(m, Facing(d, k))
    ensures forall j :: 1 <= j < k ==> !Open(m, Facing(d, j))
    ensures Facing(d, k) == 0 || Facing(d, k) > d
  {
    if Open(m, Facing(d, 1)) then 1 else if Open(m, Facing(d, 2)) then 2 else 3
  }

  // What it logs from entering the maze until it has left it again or met a goal.
  function Log(m: Maze): seq<int>
    requires m == Wall || Proper(m)
    decreases m, 4
  {
    match m
    case Branch(_, _, _) => LogFrom(m, 0)
    case DeadEnd => [BACK]
    case _ => []
  }

  // The same from a junction, with side d behind it.
  function LogFrom(m: Maze, d: Side): seq<int>
    requires m.Branch? && Proper(m)
    decreases m, 3 - d
  {
    var k := Choice(m, d);
    var e := Facing(d, k);
    [Turn(k)] +
    if e == 0 then [] else Log(Way(m, e)) + if HasGoal(Way(m, e)) then [] else LogFrom(m, e)
  }

  // Driving through the maze with one entry of the route for each junction.
  predicate Arrives(m: Maze, route: seq<int>) {
    match m
    case Goal => route == []
    case Branch(l, s, r) =>
      && route != []
      && (route[0] == LEFT || route[0] == STRAIGHT || route[0] == RIGHT)
      && Arrives(if route[0] == LEFT then l else if route[0] == STRAIGHT then s else r, route[1..])
    case _ => false
  }

  // ---------- the drive, one log entry at a time ----------

  // The junctions the robot is beyond, each with the side it left by.
  type Trail = seq<(Maze, Side)>

  // Coming into a part of the maze, or back at its junction with a side behind it.
  datatype Spot = Out | In(m: Maze, behind: Side, trail: Trail)

  ghost predicate ProperTrail(trail: Trail) {
    forall i :: 0 <= i < |trail| ==> trail[i].0.Branch? && Proper(trail[i].0)
  }

  ghost predicate ProperSpot(s: Spot) {
    s.In? ==> Proper(s.m) && ProperTrail(s.trail) && (s.m.Branch? || s.behind == 0)
  }

  predicate Driving(s: Spot) {
    s.In? && !s.m.Goal?
  }

  function Entry(s: Spot): int
    requires Driving(s) && Proper(s.m)
  {
    if s.m.Branch? then Turn(Choice(s.m, s.behind)) else BACK
  }

  function Back(trail: Trail): Spot {
    if trail == [] then Out else In(trail[|trail| - 1].0, trail[|trail| - 1].1, trail[..|trail| - 1])
  }

  function Drive(s: Spot): Spot
    requires Driving(s) && Proper(s.m)
  {
    if s.m.DeadEnd? then Back(s.trail)
    else
      var e := Facing(s.behind, Choice(s.m, s.behind));
      if e == 0 then Back(s.trail) else In(Way(s.m, e), 0, s.trail + [(s.m, e)])
  }

  // Whether this part of the maze, from side d on, has a goal.
  predicate GoalBeyond(m: Maze, d: Side) {
    match m
    case Branch(l, s, r) => (d < 1 && HasGoal(l)) || (d < 2 && HasGoal(s)) || (d < 3 && HasGoal(r))
    case _ => m.Goal?
  }

  predicate GoalAhead(s: Spot)
    decreases if s.In? then |s.trail| + 1 else 0
  {
    s.In? && (GoalBeyond(s.m, s.behind) || GoalAhead(Back(s.trail)))
  }

  // What is still to be logged.
  ghost function Rest(s: Spot): seq<int>
    requires ProperSpot(s)
    decreases if s.In? then |s.trail| + 1 else 0
  {
    if s == Out then [] else RestHere(s.m, s.behind, Rest(Back(s.trail)))
  }

  // With what is to be logged on the way back, if the robot gets back.
  function RestHere(m: Maze, d: Side, after: seq<int>): seq<int>
    requires Proper(m)
  {
    LogHere(m, d) + if GoalBeyond(m, d) then [] else after
  }

  function LogHere(m: Maze, d: Side): seq<int>
    requires Proper(m)
  {
    if m.Branch? then LogFrom(m, d) else Log(m)
  }

  // No way is skipped.
  lemma GoalsFrom(m: Maze, d: Side)
    requires m.Branch? && Proper(m)
    ensures var e := Facing(d, Choice(m, d));
            GoalBeyond(m, d) <==> e != 0 && (HasGoal(Way(m, e)) || GoalBeyond(m, e))
  {
    var k := Choice(m, d);
    if k > 1 {
      assert !Open(m, Facing(d, 1));
    }
    if k > 2 {
      assert !Open(m, Facing(d, 2));
    }
  }

  lemma DriveStarts(m: Maze)
    requires Proper(m)
    ensures GoalAhead(In(m, 0, [])) == HasGoal(m) && Rest(In(m, 0, [])) == Log(m)
  {
    assert Rest(Out) == [];
    assert Log(m) + [] == Log(m);
    assert LogHere(m, 0) == Log(m);
  }

  lemma DriveLogs(s: Spot)
    requires ProperSpot(s) && Driving(s)
    ensures ProperSpot(Drive(s)) && Rest(s) == [Entry(s)] + Rest(Drive(s)) && GoalAhead(s) == GoalAhead(Drive(s))
  {
    if s.m.Branch? {
      var e := Facing(s.behind, Choice(s.m, s.behind));
      if e != 0 {
        DriveInLogs(s.m, s.behind, e, s.trail);
        DriveInGoals(s.m, s.behind, e, s.trail);
      } else {
        GoalsFrom(s.m, s.behind);
        assert LogFrom(s.m, s.behind) == [Entry(s)];
      }
    } else {
      assert LogHere(s.m, s.behind) == [Entry(s)];
    }
  }

  lemma DriveInLogs(m: Maze, d: Side, e: Side, trail: Trail)
    requires m.Branch? && ProperSpot(In(m, d, trail)) && e == Facing(d, Choice(m, d)) && e != 0
    ensures ProperSpot(In(Way(m, e), 0, trail + [(m, e)]))
    ensures Rest(In(m, d, trail)) == [Turn(Choice(m, d))] + Rest(In(Way(m, e), 0, trail + [(m, e)]))
  {
    BackAgain(Way(m, e), m, e, trail);
    LogSplits(m, d, e, Rest(Back(trail)));
  }

  lemma DriveInGoals(m: Maze, d: Side, e: Side, trail: Trail)
    requires m.Branch? && ProperSpot(In(m, d, trail)) && e == Facing(d, Choice(m, d)) && e != 0
    ensures GoalAhead(In(m, d, trail)) == GoalAhead(In(Way(m, e), 0, trail + [(m, e)]))
  {
    GoalsFrom(m, d);
    BackAgain(Way(m, e), m, e, trail);
  }

  lemma LogSplits(m: Maze, d: Side, e: Side, after: seq<int>)
    requires m.Branch? && Proper(m) && e == Facing(d, Choice(m, d)) && e != 0
    ensures var way := Way(m, e);
            RestHere(m, d, after) ==
            [Turn(Choice(m, d))] + (Log(way) + if HasGoal(way) then [] else RestHere(m, e, after))
  {
    var way := Way(m, e);
    GoalsFrom(m, d);
    if !HasGoal(way) {
      Regroup([Turn(Choice(m, d))], Log(way), LogFrom(m, e), if GoalBeyond(m, e) then [] else after);
    }
  }

  // After a way without a goal the robot is back at the junction.
  lemma BackAgain(way: Maze, m: Maze, e: Side, trail: Trail)
    requires Proper(way) && m.Branch? && ProperSpot(In(m, e, trail))
    ensures ProperSpot(In(way, 0, trail + [(m, e)]))
    ensures Rest(In(way, 0, trail + [(m, e)])) == Log(way) + if HasGoal(way) then [] else Rest(In(m, e, trail))
    ensures GoalAhead(In(way, 0, trail + [(m, e)])) <==> HasGoal(way) || GoalAhead(In(m, e, trail))
  {
    assert Back(trail + [(m, e)]) == In(m, e, trail) by {
      assert (trail + [(m, e)])[..|trail|] == trail;
    }
  }

  lemma Append<T>(a: seq<T>, x: T, b: seq<T>)
    ensures (a + [x]) + b == a + ([x] + b)
  {
  }

  lemma Regroup<T>(a: seq<T>, b: seq<T>, c: seq<T>, d: seq<T>)
    ensures (a + (b + c)) + d == a + (b + (c + d))
  {
  }

  // ---------- the stack ----------

  datatype State = State(stack: seq<int>, isBack: bool)

  function Peek(s: seq<int>): int {
    if s == [] then -1 else s[|s| - 1]
  }

  function Popped(s: seq<int>): seq<int> {
    if s == [] then s else s[..|s| - 1]
  }

  function Pushed(s: seq<int>, dir: int): seq<int> {
    if |s| == SIZE then s else s + [dir]
  }

  // What a turn at the junction the robot has come back to makes of the turn it took
  // there: another turn, or none when it goes back where it first came from.
  datatype Combined = Instead(dir: int) | Undone | Unrelated

  function Combine(taken: int, dir: int): Combined {
    if taken == LEFT then
      if dir == LEFT then Instead(STRAIGHT) else if dir == STRAIGHT then Instead(RIGHT)
      else if dir == RIGHT then Undone else Unrelated
    else if taken == STRAIGHT then
      if dir == LEFT then Instead(RIGHT) else if dir == STRAIGHT then Undone else Unrelated
    else if taken == RIGHT then
      if dir == LEFT then Undone else Unrelated
    else Unrelated
  }

  function Step(s: State, dir: int): State {
    if s.isBack || dir == BACK then
      match Combine(Peek(s.stack), dir)
      case Instead(t) => State(Pushed(Popped(s.stack), t), false)
      case Undone => State(Popped(s.stack), true)
      case Unrelated => State(s.stack, true)
    else State(Pushed(s.stack, dir), false)
  }

  function Steps(s: State, log: seq<int>): State
    decreases |log|
  {
    if log == [] then s else Steps(Step(s, log[0]), log[1..])
  }

  /** The two arrays and the loop over them. */
  class Robot {
    const branchList: array<int>
    var branchTop: nat
    const optimalRoute: array<int>
    var optimalTop: nat

    ghost predicate Valid()
      reads this
    {
      && branchList.Length == SIZE && optimalRoute.Length == SIZE && branchList != optimalRoute
      && branchTop <= SIZE && optimalTop <= SIZE
    }

    ghost function Route(): seq<int>
      requires Valid()
      reads this, optimalRoute
    {
      optimalRoute[..optimalTop]
    }

    constructor ()
      ensures Valid() && branchTop == 0 && Route() == [] && fresh(branchList) && fresh(optimalRoute)
    {
      branchList := new int[SIZE];
      optimalRoute := new int[SIZE];
      branchTop, optimalTop := 0, 0;
    }

    // branch_list[branch_top++] = mode; nothing checks that there is room.  False where it is written
    // behind the array.
    method LogBranch(mode: int) returns (fits: bool)
      requires Valid()
      modifies this`branchTop, branchList
      ensures Valid() && (fits <==> old(branchTop) < SIZE) && (!fits ==> branchTop == old(branchTop))
      ensures branchList[..branchTop] == if fits then old(branchList[..branchTop]) + [mode] else old(branchList[..branchTop])
    {
      fits := branchTop < SIZE;
      if !fits {
        return;
      }
      branchList[branchTop] := mode;
      branchTop := branchTop + 1;
    }

    // The first drive: one entry for each junction it comes to and each dead end, until
    // it meets a goal or is back out of the maze, or writes behind its array.
    method Explore(m: Maze) returns (fits: bool, found: bool)
      requires Valid() && Proper(m)
      modifies this`branchTop, branchList
      ensures Valid() && (fits <==> old(branchTop) + |Log(m)| <= SIZE)
      ensures fits ==> found == HasGoal(m) && branchList[..branchTop] == old(branchList[..branchTop]) + Log(m)
    {
      var spot := In(m, 0, []);
      ghost var full := branchList[..branchTop] + Log(m);
      fits, found := true, false;
      DriveStarts(m);
      while Driving(spot)
        invariant Valid() && ProperSpot(spot) && GoalAhead(spot) == HasGoal(m)
        invariant branchList[..branchTop] + Rest(spot) == full
        decreases SIZE - branchTop
      {
        DriveLogs(spot);
        Append(branchList[..branchTop], Entry(spot), Rest(Drive(spot)));
        fits := LogBranch(Entry(spot));
        if !fits {
          return;
        }
        spot := Drive(spot);
      }
      found := spot.In?;
    }

    // The second drive: at each junction the next entry of the route says where to turn.
    method Follow(m: Maze) returns (arrived: bool)
      requires Valid() && Arrives(m, Route())
      ensures arrived
    {
      var at, now := m, 0;
      while at.Branch?
        invariant now <= optimalTop && Arrives(at, optimalRoute[now..optimalTop])
        decreases at
      {
        var dir := optimalRoute[now];
        assert optimalRoute[now..optimalTop][1..] == optimalRoute[now + 1..optimalTop];
        now := now + 1;
        at := if dir == LEFT then at.left else if dir == STRAIGHT then at.straight else at.right;
      }
      arrived := at.Goal?;
    }

    method PushOptimal(dir: int)
      requires Valid()
      modifies this`optimalTop, optimalRoute
      ensures Valid() && Route() == Pushed(old(Route()), dir)
      ensures Route() == if |old(Route())| == 100 then old(Route()) else old(Route()) + [dir]
    {
      if optimalTop == SIZE {
        return;
      }
      optimalRoute[optimalTop] := dir;
      optimalTop := optimalTop + 1;
    }

    method PopOptimal()
      requires Valid()
      modifies this`optimalTop
      ensures Valid() && Route() == Popped(old(Route()))
      ensures Route() == if |old(Route())| == 0 then [] else old(Route())[..|old(Route())| - 1]
    {
      if optimalTop == 0 {
        return;
      }
      optimalTop := optimalTop - 1;
    }

    method PeekOptimal() returns (dir: int)
      requires Valid()
      ensures dir == Peek(Route())
      ensures if |Route()| == 0 then dir == -1 else dir == Route()[|Route()| - 1]
    {
      if optimalTop == 0 {
        return -1;
      }
      return optimalRoute[optimalTop - 1];
    }

    method RunLsrb()
      requires Valid()
      modifies this`optimalTop, optimalRoute
      ensures Valid()
      ensures Route() == Steps(State(old(Route()), false), branchList[..branchTop]).stack
    {
      var isBack, now := false, 0;
      ghost var log := branchList[..branchTop];
      assert log[0..] == log;
      while now < branchTop
        invariant Valid() && now <= branchTop
        invariant Steps(State(Route(), isBack), log[now..]) == Steps(State(old(Route()), false), log)
      {
        var dir := branchList[now];
        ghost var before := State(Route(), isBack);
        assert log[now..][0] == dir && log[now..][1..] == log[now + 1..];
        now := now + 1;
        if dir == BACK {
          isBack := true;
        }
        if isBack {
          var top := PeekOptimal();
          if top == LEFT {
            if dir == LEFT {
              PopOptimal();
              PushOptimal(STRAIGHT);
              isBack := false;
            } else if dir == STRAIGHT {
              PopOptimal();
              PushOptimal(RIGHT);
              isBack := false;
            } else if dir == RIGHT {
              PopOptimal();
              isBack := true;
            }
          } else if top == STRAIGHT {
            if dir == LEFT {
              PopOptimal();
              PushOptimal(RIGHT);
              isBack := false;
            } else if dir == STRAIGHT {
              PopOptimal();
              isBack := true;
            }
          } else if top == RIGHT {
            if dir == LEFT {
              PopOptimal();
              isBack := true;
            }
          }
        } else if dir != BACK {
          PushOptimal(dir);
        }
        assert State(Route(), isBack) == Step(before, dir);
      }
    }

    // main: the robot arrives at the end of its second drive, unless its log does not fit.
    method BothDrives(m: Maze) returns (fits: bool, found: bool, arrived: bool)
      requires Valid() && Proper(m)
      requires branchTop == 0 && optimalTop == 0
      modifies this, branchList, optimalRoute
      ensures Valid() && (fits <==> |Log(m)| <= SIZE)
      ensures fits ==> found == arrived == HasGoal(m) && (found ==> Arrives(m, Route()))
    {
      fits, found := Explore(m);
      arrived := false;
      if !fits {
        return;
      }
      assert branchList[..branchTop] == Log(m);
      RunLsrb();
      LogBecomesRoute(m, Route());
      if found {
        arrived := Follow(m);
      }
    }
  }

  // ---------- the log becomes the direct route ----------

  lemma {:induction false} StepsAppend(s: State, a: seq<int>, b: seq<int>)
    ensures Steps(s, a + b) == Steps(Steps(s, a), b)
    decreases |a|
  {
    if a == [] {
      assert a + b == b;
    } else {
      assert (a + b)[1..] == a[1..] + b;
      StepsAppend(Step(s, a[0]), a[1..], b);
    }
  }

  lemma StepsFirst(s: State, dir: int, log: seq<int>)
    ensures Steps(s, [dir] + log) == Steps(Step(s, dir), log)
  {
    assert ([dir] + log)[1..] == log;
  }

  // Having come back to a junction from side d, the robot turns to side e: the turn
  // that would have led there in the first place takes the place of the one it took.
  lemma Corrected(stack: seq<int>, d: Side, e: Side, k: int)
    requires d > 0 && 1 <= k <= 3 && Facing(d, k) == e && (e == 0 || e > d) && |stack| < SIZE
    ensures Step(State(stack + [Turn(d)], true), Turn(k)) ==
            if e == 0 then State(stack, true) else State(stack + [Turn(e)], false)
  {
    assert Popped(stack + [Turn(d)]) == stack;
  }

  // A part of the maze without a goal leaves no trace but that the robot is back.
  lemma {:induction false} DeadPart(m: Maze, stack: seq<int>)
    requires Proper(m) && !HasGoal(m) && |stack| + |Log(m)| <= SIZE
    ensures Steps(State(stack, false), Log(m)) == State(stack, true)
    decreases m, 4
  {
    if m.Branch? {
      var k := Choice(m, 0);
      StepsFirst(State(stack, false), Turn(k), LogFrom(m, 0)[1..]);
      assert LogFrom(m, 0) == [Turn(k)] + LogFrom(m, 0)[1..];
      DeadWay(m, 0, stack);
    }
  }

  // A way without a goal: the robot comes back and turns to the next.
  lemma {:induction false} AfterDeadWay(m: Maze, d: Side, stack: seq<int>)
    requires m.Branch? && Proper(m) && |stack| + |LogFrom(m, d)| <= SIZE
    requires var e := Facing(d, Choice(m, d)); e != 0 && !HasGoal(Way(m, e))
    ensures var e := Facing(d, Choice(m, d)); var next := Facing(e, Choice(m, e));
            && |LogFrom(m, d)| > |LogFrom(m, e)|
            && Steps(State(stack + [Turn(e)], false), LogFrom(m, d)[1..]) ==
               Steps(if next == 0 then State(stack, true) else State(stack + [Turn(next)], false), LogFrom(m, e)[1..])
    decreases m, 3 - d, 0
  {
    var e := Facing(d, Choice(m, d));
    var way, top, k := Way(m, e), stack + [Turn(e)], Choice(m, e);
    assert LogFrom(m, d)[1..] == Log(way) + LogFrom(m, e);
    StepsAppend(State(top, false), Log(way), LogFrom(m, e));
    DeadPart(way, top);
    assert LogFrom(m, e) == [Turn(k)] + LogFrom(m, e)[1..];
    StepsFirst(State(top, true), Turn(k), LogFrom(m, e)[1..]);
    Corrected(stack, e, Facing(e, k), k);
  }

  // From the moment the robot has turned into the way after side d.
  lemma {:induction false} DeadWay(m: Maze, d: Side, stack: seq<int>)
    requires m.Branch? && Proper(m) && !HasGoal(m) && |stack| + |LogFrom(m, d)| <= SIZE
    ensures var e := Facing(d, Choice(m, d));
            e != 0 ==> Steps(State(stack + [Turn(e)], false), LogFrom(m, d)[1..]) == State(stack, true)
    decreases m, 3 - d
  {
    var e := Facing(d, Choice(m, d));
    if e != 0 {
      AfterDeadWay(m, d, stack);
      DeadWay(m, e, stack);
    }
  }

  // The turns of the way to the first goal, none of them into a dead part.
  function Direct(m: Maze): seq<int>
    requires HasGoal(m)
  {
    match m
    case Goal => []
    case Branch(l, s, r) =>
      if HasGoal(l) then [LEFT] + Direct(l)
      else if HasGoal(s) then [STRAIGHT] + Direct(s)
      else [RIGHT] + Direct(r)
  }

  lemma DirectFirst(m: Maze, e: Side, stack: seq<int>)
    requires m.Branch? && e > 0 && HasGoal(Way(m, e)) && forall i: Side :: 1 <= i < e ==> !HasGoal(Way(m, i))
    ensures stack + [Turn(e)] + Direct(Way(m, e)) == stack + Direct(m)
  {
    if e > 1 {
      assert !HasGoal(Way(m, 1));
    }
    if e > 2 {
      assert !HasGoal(Way(m, 2));
    }
    assert Direct(m) == [Turn(e)] + Direct(Way(m, e));
  }

  lemma {:induction false} LivePart(m: Maze, stack: seq<int>)
    requires Proper(m) && HasGoal(m) && |stack| + |Log(m)| <= SIZE
    ensures Steps(State(stack, false), Log(m)) == State(stack + Direct(m), false)
    decreases m, 4
  {
    if m.Branch? {
      var k := Choice(m, 0);
      assert LogFrom(m, 0) == [Turn(k)] + LogFrom(m, 0)[1..];
      StepsFirst(State(stack, false), Turn(k), LogFrom(m, 0)[1..]);
      LiveWay(m, 0, stack);
    } else {
      assert stack + [] == stack;
    }
  }

  // No goal up to side d.
  predicate DeadUpTo(m: Maze, d: Side)
    requires m.Branch?
  {
    forall e: Side :: 1 <= e <= d ==> !HasGoal(Way(m, e))
  }

  lemma {:induction false} LiveWay(m: Maze, d: Side, stack: seq<int>)
    requires m.Branch? && Proper(m) && HasGoal(m) && DeadUpTo(m, d) && |stack| + |LogFrom(m, d)| <= SIZE
    ensures var e := Facing(d, Choice(m, d));
            e > d && Steps(State(stack + [Turn(e)], false), LogFrom(m, d)[1..]) == State(stack + Direct(m), false)
    decreases m, 3 - d
  {
    var e := Facing(d, Choice(m, d));
    SomeWayOn(m, d);
    var way, top := Way(m, e), stack + [Turn(e)];
    if HasGoal(way) {
      assert LogFrom(m, d)[1..] == Log(way);
      LivePart(way, top);
      DirectFirst(m, e, stack);
    } else {
      SomeWayOn(m, e);
      AfterDeadWay(m, d, stack);
      LiveWay(m, e, stack);
    }
  }

  // Ways that have no goal do not use up the ways there are, and no way is skipped.
  lemma SomeWayOn(m: Maze, d: Side)
    requires m.Branch? && Proper(m) && HasGoal(m) && DeadUpTo(m, d)
    ensures var e := Facing(d, Choice(m, d)); e > d && forall i: Side :: d < i < e ==> !HasGoal(Way(m, i))
  {
    assert HasGoal(Way(m, 1)) || HasGoal(Way(m, 2)) || HasGoal(Way(m, 3));
    var k := Choice(m, d);
    forall i: Side | d < i && (i < Facing(d, k) || Facing(d, k) == 0)
      ensures Way(m, i) == Wall
    {
      assert i == Facing(d, i - d) && !Open(m, Facing(d, i - d));
    }
  }

  // ---------- the second drive ----------

  lemma {:induction false} DirectArrives(m: Maze)
    requires HasGoal(m)
    ensures Arrives(m, Direct(m))
  {
    if m.Branch? {
      assert forall t: int, rest: seq<int> :: ([t] + rest)[1..] == rest;
      if HasGoal(m.left) {
        DirectArrives(m.left);
      } else if HasGoal(m.straight) {
        DirectArrives(m.straight);
      } else {
        DirectArrives(m.right);
      }
    }
  }

  lemma {:induction false} ArrivesAtGoal(m: Maze, route: seq<int>)
    requires Arrives(m, route)
    ensures HasGoal(m) && Goals(m) >= 1
  {
    if m.Branch? {
      ArrivesAtGoal(if route[0] == LEFT then m.left else if route[0] == STRAIGHT then m.straight else m.right, route[1..]);
    }
  }

  lemma {:induction false} HasGoals(m: Maze)
    ensures HasGoal(m) <==> Goals(m) >= 1
  {
    if m.Branch? {
      HasGoals(m.left);
      HasGoals(m.straight);
      HasGoals(m.right);
    }
  }

  // With one goal there is one route.
  lemma {:induction false} OneRoute(m: Maze, route: seq<int>)
    requires Goals(m) == 1 && Arrives(m, route)
    ensures HasGoal(m) && route == Direct(m)
  {
    HasGoals(m);
    if m.Branch? {
      HasGoals(m.left);
      HasGoals(m.straight);
      HasGoals(m.right);
      var next := if route[0] == LEFT then m.left else if route[0] == STRAIGHT then m.straight else m.right;
      ArrivesAtGoal(next, route[1..]);
      OneRoute(next, route[1..]);
      assert route == [route[0]] + route[1..];
    }
  }

  // For every maze whose log fits: with a goal, the second drive arrives, on the only
  // route there is if there is but one goal; without one, no route is left.
  lemma LogBecomesRoute(m: Maze, route: seq<int>)
    requires Proper(m) && |Log(m)| <= SIZE
    requires route == Steps(State([], false), Log(m)).stack
    ensures HasGoal(m) ==> Arrives(m, route)
    ensures Goals(m) == 1 ==> forall other :: Arrives(m, other) <==> other == route
    ensures !HasGoal(m) ==> route == []
  {
    HasGoals(m);
    if HasGoal(m) {
      LivePart(m, []);
      assert [] + Direct(m) == Direct(m);
      DirectArrives(m);
      if Goals(m) == 1 {
        forall other | Arrives(m, other)
          ensures other == route
        {
          OneRoute(m, other);
        }
      }
    } else {
      DeadPart(m, []);
    }
  }
}
