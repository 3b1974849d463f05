/** Work items of an evaluation run and their keys (src/evaluation/runner.ts, `expandWorkItems`,
    `workKey`). A logged trial is recognised by its key, so the key must determine the item. */
module EvalWork {
  import opened Prelude

  datatype Arm = Cold | Warm | Distractor | Poisoned

  /** `arm` is absent when the suite has no memory evaluation. */
  datatype WorkItem = WorkItem(task: string, trial: nat, arm: Option<Arm>)

  function ArmName(arm: Option<Arm>): string {
    match arm
    case None => "_"
    case Some(Cold) => "cold"
    case Some(Warm) => "warm"
    case Some(Distractor) => "distractor"
    case Some(Poisoned) => "poisoned"
  }

  function Digit(d: nat): char
    requires d < 10
  {
    ['0', '1', '2', '3', '4', '5', '6', '7', '8', '9'][d]
  }

  function Decimal(n: nat): string {
    if n < 10 then [Digit(n)] else Decimal(n / 10) + [Digit(n % 10)]
  }

  function WorkKey(item: WorkItem): string {
    item.task + "::" + Decimal(item.trial) + "::" + ArmName(item.arm)
  }

  function GroupKey(item: WorkItem): string {
    item.task + "::" + ArmName(item.arm)
  }

  // ----- Keys determine items -----

  ghost predicate ColonFree(s: string) {
    forall i :: 0 <= i < |s| ==> s[i] != ':'
  }

  /** A key can be read from its end: the part after the last colon is unambiguous. */
  lemma SplitAtLastColon(a: string, b: string, c: string, d: string)
    requires ColonFree(b) && ColonFree(d) && a + [':'] + b == c + [':'] + d
    ensures a == c && b == d
  {
    NoLaterColon(a, b);
    NoLaterColon(c, d);
    var s := a + [':'] + b;
    assert s[|a|] == ':' && s[|c|] == (c + [':'] + d)[|c|] == ':';
    assert |a| == |c|;
    assert a == s[..|a|] && b == s[|a| + 1..];
    assert c == (c + [':'] + d)[..|c|] && d == (c + [':'] + d)[|c| + 1..];
  }

  lemma NoLaterColon(a: string, b: string)
    requires ColonFree(b)
    ensures forall k :: |a| < k < |a + [':'] + b| ==> (a + [':'] + b)[k] != ':'
  {
    forall k | |a| < k < |a + [':'] + b|
      ensures (a + [':'] + b)[k] != ':'
    {
      assert (a + [':'] + b)[k] == b[k - |a| - 1];
    }
  }

  lemma {:induction false} DecimalColonFree(n: nat)
    ensures ColonFree(Decimal(n)) && Decimal(n) != []
  {
    if n >= 10 { DecimalColonFree(n / 10); }
  }

  lemma DecimalUnfold(n: nat)
    ensures Decimal(n) != [] && Last(Decimal(n)) == Digit(n % 10)
    ensures Init(Decimal(n)) == if n < 10 then [] else Decimal(n / 10)
  {
  }

  lemma DigitInjective(d: nat, e: nat)
    requires d < 10 && e < 10 && Digit(d) == Digit(e)
    ensures d == e
  {
  }

  lemma {:induction false} DecimalInjective(m: nat, n: nat)
    requires Decimal(m) == Decimal(n)
    ensures m == n
    decreases m
  {
    DecimalUnfold(m);
    DecimalUnfold(n);
    DigitInjective(m % 10, n % 10);
    DecimalColonFree(m / 10);
    DecimalColonFree(n / 10);
    if m >= 10 && n >= 10 {
      DecimalInjective(m / 10, n / 10);
    }
  }

  lemma ArmNameColonFree(arm: Option<Arm>)
    ensures ColonFree(ArmName(arm))
  {
  }

  lemma ArmNameInjective(a: Option<Arm>, b: Option<Arm>)
    requires ArmName(a) == ArmName(b)
    ensures a == b
  {
    assert ArmName(a)[0] == ArmName(b)[0];
  }

  lemma DoubleColon(a: string, b: string, c: string, d: string)
    requires ColonFree(b) && ColonFree(d) && a + "::" + b == c + "::" + d
    ensures a == c && b == d
  {
    assert a + "::" + b == (a + [':']) + [':'] + b && c + "::" + d == (c + [':']) + [':'] + d;
    SplitAtLastColon(a + [':'], b, c + [':'], d);
    assert a == (a + [':'])[..|a|] && c == (c + [':'])[..|c|];
    assert |a| == |c|;
  }

  /** Distinct work items have distinct keys, whatever characters the task ids contain. */
  lemma WorkKeyInjective(x: WorkItem, y: WorkItem)
    ensures WorkKey(x) == WorkKey(y) <==> x == y
  {
    if WorkKey(x) == WorkKey(y) {
      ArmNameColonFree(x.arm);
      ArmNameColonFree(y.arm);
      DoubleColon(x.task + "::" + Decimal(x.trial), ArmName(x.arm), y.task + "::" + Decimal(y.trial), ArmName(y.arm));
      ArmNameInjective(x.arm, y.arm);
      DecimalColonFree(x.trial);
      DecimalColonFree(y.trial);
      DoubleColon(x.task, Decimal(x.trial), y.task, Decimal(y.trial));
      DecimalInjective(x.trial, y.trial);
    }
  }

  lemma GroupKeyInjective(x: WorkItem, y: WorkItem)
    ensures GroupKey(x) == GroupKey(y) <==> x.task == y.task && x.arm == y.arm
  {
    if GroupKey(x) == GroupKey(y) {
      ArmNameColonFree(x.arm);
      ArmNameColonFree(y.arm);
      DoubleColon(x.task, ArmName(x.arm), y.task, ArmName(y.arm));
      ArmNameInjective(x.arm, y.arm);
    }
  }

  // ----- Expansion -----

  /** The items of one task and arm, trials 1 to `repetitions`. */
  function Repeat(task: string, arm: Option<Arm>, repetitions: nat): seq<WorkItem> {
    if repetitions == 0 then [] else Repeat(task, arm, repetitions - 1) + [WorkItem(task, repetitions, arm)]
  }

  function ExpandArms(task: string, arms: seq<Option<Arm>>, repetitions: nat): seq<WorkItem> {
    if arms == [] then [] else Repeat(task, arms[0], repetitions) + ExpandArms(task, arms[1..], repetitions)
  }

  function ExpandWorkItems(tasks: seq<string>, arms: seq<Option<Arm>>, repetitions: nat): seq<WorkItem> {
    if tasks == [] then [] else ExpandArms(tasks[0], arms, repetitions) + ExpandWorkItems(tasks[1..], arms, repetitions)
  }

  function Is(x: WorkItem): WorkItem -> bool {
    (y: WorkItem) => y == x
  }

  lemma {:induction false} RepeatCount(task: string, arm: Option<Arm>, repetitions: nat, x: WorkItem)
    ensures Count(Repeat(task, arm, repetitions), Is(x))
            == if x.task == task && x.arm == arm && 1 <= x.trial <= repetitions then 1 else 0
    decreases repetitions
  {
    if repetitions > 0 {
      RepeatCount(task, arm, repetitions - 1, x);
      CountAppend(Repeat(task, arm, repetitions - 1), WorkItem(task, repetitions, arm), Is(x));
    }
  }

  lemma {:induction false} ExpandArmsCount(task: string, arms: seq<Option<Arm>>, repetitions: nat, x: WorkItem)
    requires Distinct(arms)
    ensures Count(ExpandArms(task, arms, repetitions), Is(x))
            == if x.task == task && x.arm in arms && 1 <= x.trial <= repetitions then 1 else 0
    decreases |arms|
  {
    if arms != [] {
      RepeatCount(task, arms[0], repetitions, x);
      ExpandArmsCount(task, arms[1..], repetitions, x);
      CountConcat(Repeat(task, arms[0], repetitions), ExpandArms(task, arms[1..], repetitions), Is(x));
      assert x.arm in arms <==> x.arm == arms[0] || x.arm in arms[1..];
      assert arms[0] !in arms[1..];
    }
  }

  /** With distinct task ids, each combination of task, arm and trial number is one work item. */
  lemma {:induction false} ExpandCount(tasks: seq<string>, arms: seq<Option<Arm>>, repetitions: nat, x: WorkItem)
    requires Distinct(tasks) && Distinct(arms)
    ensures Count(ExpandWorkItems(tasks, arms, repetitions), Is(x))
            == if x.task in tasks && x.arm in arms && 1 <= x.trial <= repetitions then 1 else 0
    decreases |tasks|
  {
    if tasks != [] {
      ExpandArmsCount(tasks[0], arms, repetitions, x);
      ExpandCount(tasks[1..], arms, repetitions, x);
      CountConcat(ExpandArms(tasks[0], arms, repetitions), ExpandWorkItems(tasks[1..], arms, repetitions), Is(x));
      assert x.task in tasks <==> x.task == tasks[0] || x.task in tasks[1..];
      assert tasks[0] !in tasks[1..];
    }
  }
}
