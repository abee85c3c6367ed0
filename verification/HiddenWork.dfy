/**
  A legal run after which the CPU idles for ever beside a task that can run: a group whose
  first child is an empty group hides the task spawned next to it, because a descent never
  tries a second child.
 */
module HiddenWork {
  import opened Tree
  import opened Memory
  import opened Dispatch
  import opened Walk
  import opened Lifecycle
  import opened Invariant
  import opened Runs

  /** main spawns a group, an empty group in it, a task in it, and returns. */
  function Steps(): seq<Step> {
    [SpawnGroupStep(1, 1, Granted(3)), SpawnGroupStep(3, 1, Granted(4)), SpawnStep(3, 1, Granted(5)), ExitStep]
  }

  function Node(kind: Kind, id: nat, parent: Ptr, next: Ptr, prev: Ptr, head: Ptr, cursor: Ptr): Tcb {
    Tcb(kind, Ready, false, next, prev, id, 1, 1, 0, 0, parent, head, cursor)
  }

  function Root(head: Ptr, cursor: Ptr): Tcb {
    Tcb(Group, Ready, false, NULL, NULL, 0, U32_MAX, U32_MAX, 0, 0, NULL, head, cursor)
  }

  function AfterGroup(): State {
    State(map[1 := Root(2, 2), 2 := Node(Leaf, 1, 1, 3, 3, NULL, NULL).(state := Running),
              3 := Node(Group, 2, 1, 2, 2, NULL, NULL)],
          1, 2, 3, NULL, 0, 0, 3, 1, 1, 0, 3, 0)
  }

  function AfterInner(): State {
    AfterGroup().(mem := AfterGroup().mem[3 := Node(Group, 2, 1, 2, 2, 4, 4)][4 := Node(Group, 3, 3, 4, 4, NULL, NULL)],
                  nodes := 4, nextId := 4)
  }

  function AfterTask(): State {
    AfterInner().(mem := AfterInner().mem[4 := Node(Group, 3, 3, 5, 5, NULL, NULL)][5 := Node(Leaf, 4, 3, 4, 4, NULL, NULL)],
                  nodes := 5, nextId := 5, total := 2, active := 2)
  }

  function AfterExit(): State {
    AfterTask().(mem := AfterTask().mem[1 := Root(3, 3)]
                          [2 := Node(Leaf, 1, 1, NULL, NULL, NULL, NULL).(state := Dead)]
                          [3 := Node(Group, 2, 1, 3, 3, 4, 4)],
                 pending := 2, current := NULL, active := 1)
  }

  lemma Unfold(k: State, a: Step, b: Step, c: Step, d: Step)
    ensures Run(k, []) == k
    ensures Run(k, [a]) == Apply(k, a)
    ensures Run(k, [a, b]) == Apply(Apply(k, a), b)
    ensures Run(k, [a, b, c]) == Apply(Apply(Apply(k, a), b), c)
    ensures Run(k, [a, b, c, d]) == Apply(Apply(Apply(Apply(k, a), b), c), d)
  {
    hide Apply;
    assert [a][..0] == [] && [a, b][..1] == [a] && [a, b, c][..2] == [a, b] && [a, b, c, d][..3] == [a, b, c];
  }

  lemma FirstStep()
    ensures Apply(Init(1, 2), Steps()[0]) == AfterGroup()
  {
    assert Apply(Init(1, 2), Steps()[0]).mem == AfterGroup().mem;
  }

  lemma SecondStep()
    ensures Apply(AfterGroup(), Steps()[1]) == AfterInner()
  {
    assert Apply(AfterGroup(), Steps()[1]).mem == AfterInner().mem;
  }

  lemma ThirdStep()
    ensures Apply(AfterInner(), Steps()[2]) == AfterTask()
  {
    assert Apply(AfterInner(), Steps()[2]).mem == AfterTask().mem;
  }

  lemma FourthStep()
    ensures Apply(AfterTask(), Steps()[3]) == AfterExit()
  {
    assert Apply(AfterTask(), Steps()[3]).mem == AfterExit().mem;
  }

  lemma Reached()
    ensures Legal(Init(1, 2), Steps())
    ensures Run(Init(1, 2), Steps()) == AfterExit()
  {
    hide Apply, Init;
    var k, s := Init(1, 2), Steps();
    Unfold(k, s[0], s[1], s[2], s[3]);
    FirstStep();
    SecondStep();
    ThirdStep();
    FourthStep();
    assert s[..0] == [] && s[..1] == [s[0]] && s[..2] == [s[0], s[1]] && s[..3] == [s[0], s[1], s[2]] && s[..4] == s;
    assert Allowed(k, s[0]) by { InitAllows(); }
    forall i | 0 <= i < |s| ensures Allowed(Run(k, s[..i]), s[i]) {
      assert i == 0 || i == 1 || i == 2 || i == 3;
    }
  }

  lemma InitAllows()
    ensures Allowed(Init(1, 2), Steps()[0])
  {
  }

  lemma EmptyGroupOffersNothing(limit: nat)
    requires limit >= 2
    ensures DescendAndArm(AfterExit().mem, 3, limit) == (AfterExit().mem, NULL)
  {
    var m := AfterExit().mem;
    assert ResumeChild(m, 3) == 4 && ResumeChild(m, 4) == NULL;
    assert SetCursor(m, 3, 4) == m;
    assert DescendAndArm(m, 4, limit - 1) == (m, NULL);
  }

  lemma ScanFindsNobody(limit: nat, budget: nat)
    requires limit >= 2
    ensures ScanRing(AfterExit().mem, 1, 3, 3, limit, budget) == (AfterExit().mem, NULL)
  {
    hide DescendAndArm;
    EmptyGroupOffersNothing(limit);
  }

  lemma AdvanceFindsNobody(limit: nat)
    requires limit >= 2
    ensures AdvanceFrom(AfterExit().mem, 1, limit, limit) == (AfterExit().mem, NULL)
  {
    hide ScanRing;
    var m := AfterExit().mem;
    assert ScanStart(m, 1) == 3 && Linked(m, Head(m, 1));
    ScanFindsNobody(limit, |m|);
    assert AdvanceFrom(m, NULL, limit, limit - 1) == (m, NULL);
  }

  /** General work conservation is false: task 5 can run, and the dispatcher says nobody
      can.  The state does not change, so it says so at every later switch too. */
  lemma WorkCanHide()
    ensures Legal(Init(1, 2), Steps())
    ensures var k := Run(Init(1, 2), Steps());
            && ScheduleNext(k) == (k, NULL)
            && 5 in k.mem && k.mem[5].kind.Leaf? && Linked(k.mem, 5) && Runnable(k.mem, 5)
  {
    hide AdvanceFrom, DescendAndArm, Run, Init, Steps, Legal;
    Reached();
    var limit := WalkLimit(AfterExit().nodes);
    EmptyGroupOffersNothing(limit);
    AdvanceFindsNobody(limit);
    assert ResumeChild(AfterExit().mem, 1) == 3;
  }
}
