/**
  The C++ rule table: a fixed block of characters, a count, a connection cap and
  a mode, changed by three calls. `Table` is the value of that struct and `Apply`
  what one call does to it; the class carries the struct itself.
 */
module FirewallTable {
  import opened Text

  const MAX_RULES: nat := 100
  const MAX_RULE_LENGTH: nat := 1024
  const TABLE_CHARS: nat := MAX_RULES * MAX_RULE_LENGTH
  const NUL: char := 0 as char

  const RULES_OVERFLOW: int := -2
  const RULES_CONFIG_ALREADY_SET: int := -3

  datatype Mode = Uninitialized | Enabled | Disabled | MaxConnections

  datatype Table = Table(mem: seq<char>, count: nat, max: CInt, mode: Mode)

  datatype Call =
    | SetRule(rule: string)
    | SetMax(max: CInt)
    | Reset

  /** A C string argument: it holds no terminator. */
  predicate CString(s: string) {
    NUL !in s
  }

  predicate WellFormed(t: Table) {
    |t.mem| == TABLE_CHARS && t.count <= MAX_RULES
  }

  /** The zeroed global the process starts with. */
  function Zeroed(): (t: Table)
    ensures WellFormed(t)
  {
    Table(seq(TABLE_CHARS, i => NUL), 0, -1, Uninitialized)
  }

  /** What `printf("%s")` prints from position `k`: everything up to the next terminator. */
  function CStringAt(mem: seq<char>, k: nat): (s: string)
    requires k <= |mem|
    ensures k + |s| <= |mem| && s == mem[k..k + |s|] && CString(s)
    ensures k + |s| < |mem| ==> mem[k + |s|] == NUL
    decreases |mem| - k
  {
    if k == |mem| || mem[k] == NUL then "" else [mem[k]] + CStringAt(mem, k + 1)
  }

  function Slot(t: Table, i: nat): string
    requires WellFormed(t) && i < MAX_RULES
  {
    CStringAt(t.mem, i * MAX_RULE_LENGTH)
  }

  function Slots(t: Table): (rules: seq<string>)
    requires WellFormed(t)
    ensures |rules| == t.count
    ensures forall i :: 0 <= i < t.count ==> rules[i] == Slot(t, i)
  {
    seq(t.count, i requires 0 <= i < t.count => Slot(t, i))
  }

  /** The answer of the guards, in the order the code asks them. */
  function Verdict(t: Table, c: Call): int {
    match c
    case SetMax(_) => 0
    case Reset => if t.mode == Enabled then RULES_CONFIG_ALREADY_SET else 0
    case SetRule(rule) =>
      if t.count > MAX_RULES then RULES_OVERFLOW
      else if |rule| > MAX_RULE_LENGTH then RULES_OVERFLOW
      else if t.mode == Disabled then RULES_CONFIG_ALREADY_SET
      else 0
  }

  /** What C++ asks of the caller: a C string, and a slot to copy it to. */
  predicate Callable(t: Table, c: Call) {
    c.SetRule? ==> CString(c.rule) && (Verdict(t, c) == 0 ==> t.count < MAX_RULES)
  }

  /** The block after `memcpy` of `text` to position `k`. */
  function Copied(mem: seq<char>, k: nat, text: string): (r: seq<char>)
    requires k + |text| <= |mem|
    ensures |r| == |mem|
    ensures forall j :: 0 <= j < |mem| ==> r[j] == if k <= j < k + |text| then text[j - k] else mem[j]
  {
    mem[..k] + text + mem[k + |text|..]
  }

  function Apply(t: Table, c: Call): (r: Table)
    requires WellFormed(t) && Callable(t, c)
    ensures WellFormed(r)
  {
    if Verdict(t, c) != 0 then t
    else match c
      case SetMax(max) => t.(max := max, mode := MaxConnections)
      case Reset => t.(mode := Disabled, count := 0)
      case SetRule(rule) =>
        t.(mem := Copied(t.mem, t.count * MAX_RULE_LENGTH, rule), count := t.count + 1, mode := Enabled)
  }

  /** The text `DumpRules` writes for a table that reads as `rules`. */
  function DumpText(max: CInt, rules: seq<string>): string {
    PrintInt(max) + "\n" + if max < 0 then RuleLines(rules) else ""
  }

  function RuleLines(rules: seq<string>): string {
    if |rules| == 0 then "" else rules[0] + "\n" + RuleLines(rules[1..])
  }

  lemma {:induction false} RuleLinesSnoc(rules: seq<string>, rule: string)
    ensures RuleLines(rules + [rule]) == RuleLines(rules) + rule + "\n"
  {
    if |rules| == 0 {
      assert rules + [rule] == [rule];
      assert RuleLines([rule]) == rule + "\n" + RuleLines([]);
    } else {
      assert (rules + [rule])[0] == rules[0];
      assert (rules + [rule])[1..] == rules[1..] + [rule];
      RuleLinesSnoc(rules[1..], rule);
    }
  }

  lemma RuleLinesPrefix(rules: seq<string>, i: nat)
    requires i < |rules|
    ensures RuleLines(rules[..i + 1]) == RuleLines(rules[..i]) + rules[i] + "\n"
  {
    assert rules[..i + 1] == rules[..i] + [rules[i]];
    RuleLinesSnoc(rules[..i], rules[i]);
  }

  /** The struct `FirewallRules`, its two-dimensional character array laid out flat. */
  class FirewallRules {
    const rules: array<char>
    var count: nat
    var maxConnections: CInt
    var mode: Mode

    ghost predicate Valid()
      reads this, rules
    {
      rules.Length == TABLE_CHARS && count <= MAX_RULES
    }

    ghost function Value(): (t: Table)
      reads this, rules
    {
      Table(rules[..], count, maxConnections, mode)
    }

    constructor ()
      ensures Valid() && Value() == Zeroed() && fresh(rules)
    {
      rules := new char[TABLE_CHARS](i => NUL);
      count, maxConnections, mode := 0, -1, Uninitialized;
      new;
      assert rules[..] == Zeroed().mem;
    }

    method SetMaxConnections(max: CInt) returns (rc: int)
      requires Valid()
      modifies this
      ensures Valid() && Value() == Apply(old(Value()), SetMax(max))
      ensures rc == Verdict(old(Value()), SetMax(max))
    {
      mode := MaxConnections;
      maxConnections := max;
      rc := 0;
    }

    method SetFirewallRule(rule: string) returns (rc: int)
      requires Valid() && Callable(Value(), SetRule(rule))
      modifies this, rules
      ensures Valid() && Value() == Apply(old(Value()), SetRule(rule))
      ensures rc == Verdict(old(Value()), SetRule(rule))
    {
      if count > MAX_RULES {
        return RULES_OVERFLOW;
      }
      if |rule| > MAX_RULE_LENGTH {
        return RULES_OVERFLOW;
      }
      if mode == Disabled {
        return RULES_CONFIG_ALREADY_SET;
      }
      mode := Enabled;
      CopyTo(count * MAX_RULE_LENGTH, rule);
      count := count + 1;
      rc := 0;
    }

    /** `memcpy` into the block. */
    method CopyTo(start: nat, text: string)
      requires start + |text| <= rules.Length
      modifies rules
      ensures rules[..] == Copied(old(rules[..]), start, text)
    {
      for j := 0 to |text|
        invariant forall k :: 0 <= k < rules.Length ==>
          rules[k] == if start <= k < start + j then text[k - start] else old(rules[k])
      {
        rules[start + j] := text[j];
      }
    }

    method ResetFirewallRules() returns (rc: int)
      requires Valid()
      modifies this
      ensures Valid() && Value() == Apply(old(Value()), Reset)
      ensures rc == Verdict(old(Value()), Reset)
    {
      if mode == Enabled {
        return RULES_CONFIG_ALREADY_SET;
      }
      mode := Disabled;
      count := 0;
      rc := 0;
    }

    /** The printing loop of `DumpRules`. */
    method RuleText() returns (text: string)
      requires Valid()
      ensures text == RuleLines(Slots(Value()))
    {
      ghost var all := Slots(Value());
      text := "";
      for i := 0 to count
        invariant text == RuleLines(all[..i])
      {
        RuleLinesPrefix(all, i);
        text := text + CStringAt(rules[..], i * MAX_RULE_LENGTH) + "\n";
      }
      assert all[..count] == all;
    }

    method DumpRules() returns (text: string)
      requires Valid()
      ensures text == DumpText(maxConnections, Slots(Value()))
    {
      text := PrintInt(maxConnections) + "\n";
      if maxConnections < 0 {
        var lines := RuleText();
        text := text + lines;
      }
    }
  }

  // ----- what a run of calls leaves in the table -----

  function Run(t: Table, calls: seq<Call>): (r: Table)
    requires WellFormed(t) && RunCallable(t, calls)
    ensures WellFormed(r)
    decreases |calls|
  {
    if |calls| == 0 then t else Run(Apply(t, calls[0]), calls[1..])
  }

  predicate RunCallable(t: Table, calls: seq<Call>)
    requires WellFormed(t)
    decreases |calls|
  {
    |calls| > 0 ==> Callable(t, calls[0]) && RunCallable(Apply(t, calls[0]), calls[1..])
  }

  /**
    What the calls leave behind, without the block of characters: the rules accepted
    since the last reset, and the length of the longest rule ever written to each slot.
   */
  datatype Expectation = Expectation(accepted: seq<string>, longest: seq<nat>)

  function Longer(a: nat, b: nat): nat {
    if a < b then b else a
  }

  function Expect(e: Expectation, accepts: bool, c: Call): Expectation {
    if !accepts then e
    else match c
      case SetMax(_) => e
      case Reset => e.(accepted := [])
      case SetRule(rule) =>
        var n := |e.accepted|;
        Expectation(e.accepted + [rule],
                    if n < |e.longest| then e.longest[n := Longer(e.longest[n], |rule|)] else e.longest)
  }

  function Expected(t: Table, e: Expectation, calls: seq<Call>): Expectation
    requires WellFormed(t) && RunCallable(t, calls)
    decreases |calls|
  {
    if |calls| == 0 then e
    else Expected(Apply(t, calls[0]), Expect(e, Verdict(t, calls[0]) == 0, calls[0]), calls[1..])
  }

  function NothingYet(): Expectation {
    Expectation([], seq(MAX_RULES, i => 0))
  }

  /** Slot `i` holds characters up to `n` and terminators from there on. */
  ghost predicate FilledTo(mem: seq<char>, i: nat, n: nat)
    requires |mem| == TABLE_CHARS
  {
    forall k :: i * MAX_RULE_LENGTH <= k < (i + 1) * MAX_RULE_LENGTH && k < TABLE_CHARS ==>
      (mem[k] == NUL <==> k >= i * MAX_RULE_LENGTH + n)
  }

  /** Slot `i` starts with the rule. */
  ghost predicate StartsSlot(mem: seq<char>, i: nat, rule: string)
    requires |mem| == TABLE_CHARS
  {
    var k := i * MAX_RULE_LENGTH;
    |rule| <= MAX_RULE_LENGTH && k + |rule| <= TABLE_CHARS && mem[k..k + |rule|] == rule
  }

  ghost predicate Agrees(t: Table, e: Expectation) {
    && WellFormed(t)
    && t.count == |e.accepted| && |e.longest| == MAX_RULES
    && (t.mode == Disabled ==> t.count == 0)
    && (t.mode == Enabled ==> t.count > 0)
    && (forall i :: 0 <= i < t.count ==>
          CString(e.accepted[i]) && |e.accepted[i]| <= e.longest[i] && StartsSlot(t.mem, i, e.accepted[i]))
    && (forall i :: 0 <= i < MAX_RULES ==> e.longest[i] <= MAX_RULE_LENGTH && FilledTo(t.mem, i, e.longest[i]))
  }

  lemma SlotsDoNotOverlap(i: nat, j: nat)
    requires i < j
    ensures (i + 1) * MAX_RULE_LENGTH == i * MAX_RULE_LENGTH + MAX_RULE_LENGTH <= j * MAX_RULE_LENGTH
  {
  }

  /** Writing a rule to slot `c`, as seen from slot `i`. */
  lemma WriteSlot(mem: seq<char>, c: nat, rule: string, i: nat, n: nat)
    requires |mem| == TABLE_CHARS && c < MAX_RULES && i < MAX_RULES && n <= MAX_RULE_LENGTH
    requires CString(rule) && |rule| <= MAX_RULE_LENGTH && FilledTo(mem, i, n)
    ensures c * MAX_RULE_LENGTH + |rule| <= TABLE_CHARS
    ensures
      var after := Copied(mem, c * MAX_RULE_LENGTH, rule);
      && FilledTo(after, i, if i == c then Longer(n, |rule|) else n)
      && (forall r: string :: i != c && StartsSlot(mem, i, r) ==> StartsSlot(after, i, r))
      && StartsSlot(after, c, rule)
  {
    SlotsDoNotOverlap(c, MAX_RULES);
    if i < c {
      SlotsDoNotOverlap(i, c);
    } else if c < i {
      SlotsDoNotOverlap(c, i);
    }
    var k, after := c * MAX_RULE_LENGTH, Copied(mem, c * MAX_RULE_LENGTH, rule);
    assert after[k..k + |rule|] == rule;
    forall j | k <= j < k + |rule|
      ensures after[j] != NUL
    {
      assert rule[j - k] in rule;
    }
    forall r: string | i != c && StartsSlot(mem, i, r)
      ensures StartsSlot(after, i, r)
    {
      var l := i * MAX_RULE_LENGTH;
      assert after[l..l + |r|] == mem[l..l + |r|];
    }
  }

  lemma ApplyAgrees(t: Table, e: Expectation, c: Call)
    requires Agrees(t, e) && Callable(t, c)
    ensures Agrees(Apply(t, c), Expect(e, Verdict(t, c) == 0, c))
  {
    if Verdict(t, c) == 0 && c.SetRule? {
      var t', e' := Apply(t, c), Expect(e, true, c);
      forall i | 0 <= i < MAX_RULES
        ensures e'.longest[i] <= MAX_RULE_LENGTH && FilledTo(t'.mem, i, e'.longest[i])
        ensures i < t'.count ==>
          CString(e'.accepted[i]) && |e'.accepted[i]| <= e'.longest[i] && StartsSlot(t'.mem, i, e'.accepted[i])
      {
        WriteSlot(t.mem, t.count, c.rule, i, e.longest[i]);
      }
    }
  }

  lemma {:induction false} RunAgrees(t: Table, e: Expectation, calls: seq<Call>)
    requires Agrees(t, e) && RunCallable(t, calls)
    ensures Agrees(Run(t, calls), Expected(t, e, calls))
    decreases |calls|
  {
    if |calls| > 0 {
      ApplyAgrees(t, e, calls[0]);
      RunAgrees(Apply(t, calls[0]), Expect(e, Verdict(t, calls[0]) == 0, calls[0]), calls[1..]);
    }
  }

  lemma {:induction false} ReadsBack(mem: seq<char>, k: nat, rule: string)
    requires k + |rule| <= |mem| && mem[k..k + |rule|] == rule && CString(rule)
    ensures CStringAt(mem, k) == rule <==> (k + |rule| < |mem| ==> mem[k + |rule|] == NUL)
    decreases |rule|
  {
    if |rule| > 0 {
      assert mem[k] == rule[0];
      assert mem[k + 1..k + |rule|] == rule[1..];
      ReadsBack(mem, k + 1, rule[1..]);
      assert rule == [rule[0]] + rule[1..];
      var rest := CStringAt(mem, k + 1);
      assert ([mem[k]] + rest)[1..] == rest;
    }
  }

  /**
    A slot can be read back: a rule shorter than a slot is as long as any rule ever
    written there, and one that fills its slot is followed by a slot never written to
    or by the end of the table.
   */
  predicate Readable(e: Expectation, i: nat)
    requires i < |e.accepted| <= |e.longest| == MAX_RULES
  {
    if |e.accepted[i]| < MAX_RULE_LENGTH then e.longest[i] == |e.accepted[i]|
    else i + 1 < MAX_RULES ==> e.longest[i + 1] == 0
  }

  predicate AllReadable(e: Expectation) {
    |e.accepted| <= |e.longest| == MAX_RULES && forall i :: 0 <= i < |e.accepted| ==> Readable(e, i)
  }

  lemma SlotReadsBackIff(t: Table, e: Expectation, i: nat)
    requires Agrees(t, e) && i < t.count
    ensures Slot(t, i) == e.accepted[i] <==> Readable(e, i)
  {
    var rule, k := e.accepted[i], i * MAX_RULE_LENGTH;
    SlotsDoNotOverlap(i, MAX_RULES);
    SlotsDoNotOverlap(i, i + 1);
    assert StartsSlot(t.mem, i, rule) && FilledTo(t.mem, i, e.longest[i]);
    ReadsBack(t.mem, k, rule);
    if |rule| == MAX_RULE_LENGTH && i + 1 < MAX_RULES {
      SlotsDoNotOverlap(i + 1, MAX_RULES);
      assert FilledTo(t.mem, i + 1, e.longest[i + 1]);
    }
  }

  /**
    Over every sequence of calls: a disabled table is empty, an enabled one is not,
    and the table reads back as exactly the accepted rules, in order, if and only if
    every slot in use is readable.
   */
  lemma TableHoldsAcceptedRules(calls: seq<Call>)
    requires RunCallable(Zeroed(), calls)
    ensures
      var t, e := Run(Zeroed(), calls), Expected(Zeroed(), NothingYet(), calls);
      && (t.mode == Disabled ==> t.count == 0)
      && (t.mode == Enabled ==> t.count > 0)
      && t.count == |e.accepted|
      && (Slots(t) == e.accepted <==> AllReadable(e))
  {
    RunAgrees(Zeroed(), NothingYet(), calls);
    var t, e := Run(Zeroed(), calls), Expected(Zeroed(), NothingYet(), calls);
    forall i | 0 <= i < t.count
      ensures Slots(t)[i] == e.accepted[i] <==> Readable(e, i)
    {
      SlotReadsBackIff(t, e, i);
    }
  }

  // ----- the guards in terms of the calls -----

  /** The last call that was not refused. */
  function LastAccepted(t: Table, calls: seq<Call>): Option<Call>
    requires WellFormed(t) && RunCallable(t, calls)
    decreases |calls|
  {
    if |calls| == 0 then None
    else
      var later := LastAccepted(Apply(t, calls[0]), calls[1..]);
      if later.Some? || Verdict(t, calls[0]) != 0 then later else Some(calls[0])
  }

  lemma {:induction false} ModeIsLastAccepted(t: Table, calls: seq<Call>)
    requires WellFormed(t) && RunCallable(t, calls)
    ensures Run(t, calls).mode ==
      match LastAccepted(t, calls)
      case None => t.mode
      case Some(SetRule(_)) => Enabled
      case Some(SetMax(_)) => Mode.MaxConnections
      case Some(Reset) => Disabled
    decreases |calls|
  {
    if |calls| > 0 {
      ModeIsLastAccepted(Apply(t, calls[0]), calls[1..]);
    }
  }

  /**
    The answers, from the history alone: a reset is refused exactly after a rule, a rule
    exactly when it is too long or comes after a reset, a cap never. The overflow guard
    on the count never answers.
   */
  lemma RefusedIff(calls: seq<Call>, rule: string, max: CInt)
    requires RunCallable(Zeroed(), calls)
    ensures
      var t, last := Run(Zeroed(), calls), LastAccepted(Zeroed(), calls);
      && Verdict(t, Reset) == (if last.Some? && last.value.SetRule? then -3 else 0)
      && Verdict(t, SetRule(rule)) == (if |rule| > 1024 then -2 else if last == Some(Reset) then -3 else 0)
      && Verdict(t, SetMax(max)) == 0
  {
    ModeIsLastAccepted(Zeroed(), calls);
  }

  // ----- the guard on the number of rules -----

  /**
    The guard lets one rule too many through: after any calls, a further rule has no
    slot exactly when the table is full and the rule is no longer than a slot.
   */
  lemma NoSlotIff(calls: seq<Call>, rule: string)
    requires RunCallable(Zeroed(), calls) && CString(rule)
    ensures
      var t, e := Run(Zeroed(), calls), Expected(Zeroed(), NothingYet(), calls);
      && (!Callable(t, SetRule(rule)) <==> |e.accepted| == 100 && |rule| <= 1024)
      && (!Callable(t, SetRule(rule)) ==> Verdict(t, SetRule(rule)) == 0)
  {
    RunAgrees(Zeroed(), NothingYet(), calls);
  }

  function SetRules(rules: seq<string>): seq<Call> {
    seq(|rules|, i requires 0 <= i < |rules| => SetRule(rules[i]))
  }

  lemma {:induction false} RulesFillUp(t: Table, rules: seq<string>)
    requires WellFormed(t) && t.mode != Disabled && t.count + |rules| <= MAX_RULES
    requires forall r <- rules :: CString(r) && |r| <= MAX_RULE_LENGTH
    ensures RunCallable(t, SetRules(rules))
    ensures Run(t, SetRules(rules)).count == t.count + |rules|
    decreases |rules|
  {
    if |rules| > 0 {
      assert rules[0] in rules && SetRules(rules)[1..] == SetRules(rules[1..]);
      RulesFillUp(Apply(t, SetRule(rules[0])), rules[1..]);
    }
  }

  /** Any hundred rules lead there, and the guard still answers 0 to the next one. */
  lemma FullTable(rules: seq<string>, rule: string)
    requires |rules| == 100 && forall r <- rules + [rule] :: CString(r) && |r| <= 1024
    ensures
      var calls := SetRules(rules);
      && RunCallable(Zeroed(), calls)
      && Run(Zeroed(), calls).count == 100
      && Verdict(Run(Zeroed(), calls), SetRule(rule)) == 0
      && !Callable(Run(Zeroed(), calls), SetRule(rule))
  {
    forall r | r in rules
      ensures CString(r) && |r| <= MAX_RULE_LENGTH
    {
      assert r in rules + [rule];
    }
    assert rule in rules + [rule];
    RulesFillUp(Zeroed(), rules);
    NoSlotIff(SetRules(rules), rule);
    RunAgrees(Zeroed(), NothingYet(), SetRules(rules));
  }

  /**
    Refilling a slot: a cap clears the way for a reset, a second cap lifts the
    disabled mode, and the next rule lands on slot 0 again. It reads back as
    itself exactly when it is no shorter than the rule it overwrites.
   */
  lemma RefilledSlot(first: string, second: string, cap: CInt)
    requires CString(first) && CString(second)
    requires |first| < MAX_RULE_LENGTH && |second| < MAX_RULE_LENGTH
    ensures
      var calls := [SetRule(first), SetMax(cap), Reset, SetMax(-1), SetRule(second)];
      && RunCallable(Zeroed(), calls)
      && Slots(Run(Zeroed(), calls)) == [if |first| <= |second| then second else second + first[|second|..]]
  {
    var t1 := Apply(Zeroed(), SetRule(first));
    var t2 := Apply(t1, SetMax(cap));
    var t3 := Apply(t2, Reset);
    var t4 := Apply(t3, SetMax(-1));
    var t5 := Apply(t4, SetRule(second));
    var calls := [SetRule(first), SetMax(cap), Reset, SetMax(-1), SetRule(second)];
    FiveCalls(Zeroed(), calls, t1, t2, t3, t4, t5);
    assert t5.mem == Copied(Copied(Zeroed().mem, 0, first), 0, second);
    OverwrittenSlot(Zeroed().mem, first, second);
  }

  lemma OverwrittenSlot(mem: seq<char>, first: string, second: string)
    requires CString(first) && CString(second) && |first| < |mem| && |second| < |mem|
    requires forall k :: 0 <= k < |mem| ==> mem[k] == NUL
    ensures CStringAt(Copied(Copied(mem, 0, first), 0, second), 0)
         == if |first| <= |second| then second else second + first[|second|..]
  {
    var after := Copied(Copied(mem, 0, first), 0, second);
    var expected := if |first| <= |second| then second else second + first[|second|..];
    assert after[0..|expected|] == expected;
    ReadsBack(after, 0, expected);
  }

  lemma FiveCalls(t0: Table, calls: seq<Call>, t1: Table, t2: Table, t3: Table, t4: Table, t5: Table)
    requires |calls| == 5 && WellFormed(t0)
    requires Callable(t0, calls[0]) && t1 == Apply(t0, calls[0])
    requires Callable(t1, calls[1]) && t2 == Apply(t1, calls[1])
    requires Callable(t2, calls[2]) && t3 == Apply(t2, calls[2])
    requires Callable(t3, calls[3]) && t4 == Apply(t3, calls[3])
    requires Callable(t4, calls[4]) && t5 == Apply(t4, calls[4])
    ensures RunCallable(t0, calls) && Run(t0, calls) == t5
  {
    assert calls[1..][1..] == calls[2..];
    assert calls[2..][1..] == calls[3..];
    assert calls[3..][1..] == calls[4..];
    assert calls[4..][1..] == [];
    assert RunCallable(t5, []) && Run(t5, []) == t5;
    assert RunCallable(t4, calls[4..]) && Run(t4, calls[4..]) == t5;
    assert RunCallable(t3, calls[3..]) && Run(t3, calls[3..]) == t5;
    assert RunCallable(t2, calls[2..]) && Run(t2, calls[2..]) == t5;
    assert RunCallable(t1, calls[1..]) && Run(t1, calls[1..]) == t5;
  }

  /**
    The length guard lets a rule of exactly 1024 characters in. Its slot has no
    room for a terminator, so it reads back with the next slot's rule glued to it.
   */
  lemma FullSlot(first: string, second: string)
    requires CString(first) && CString(second) && |first| == 1024 && |second| < 1024
    ensures
      var calls := [SetRule(first), SetRule(second)];
      && RunCallable(Zeroed(), calls)
      && Run(Zeroed(), calls).count == 2
      && Slot(Run(Zeroed(), calls), 0) == first + second
      && Slot(Run(Zeroed(), calls), 1) == second
  {
    var calls := [SetRule(first), SetRule(second)];
    var t1 := Apply(Zeroed(), calls[0]);
    var t2 := Apply(t1, calls[1]);
    TwoCalls(Zeroed(), calls, t1, t2);
    FirstTwoSlots(Zeroed(), first, second, t1, t2);
  }

  lemma FirstTwoSlots(t0: Table, first: string, second: string, t1: Table, t2: Table)
    requires CString(first) && CString(second) && |first| == MAX_RULE_LENGTH && |second| < MAX_RULE_LENGTH
    requires WellFormed(t0) && t0.count == 0 && t0.mode == Uninitialized
    requires forall k :: 0 <= k < TABLE_CHARS ==> t0.mem[k] == NUL
    requires t1 == Apply(t0, SetRule(first)) && t2 == Apply(t1, SetRule(second))
    ensures t2.count == 2 && Slot(t2, 0) == first + second && Slot(t2, 1) == second
  {
    AdjacentSlots(t0.mem, first, second, t1.mem, t2.mem);
  }

  lemma TwoCalls(t0: Table, calls: seq<Call>, t1: Table, t2: Table)
    requires |calls| == 2 && WellFormed(t0)
    requires Callable(t0, calls[0]) && t1 == Apply(t0, calls[0])
    requires Callable(t1, calls[1]) && t2 == Apply(t1, calls[1])
    ensures RunCallable(t0, calls) && Run(t0, calls) == t2
  {
    assert calls[1..][1..] == [];
    assert RunCallable(t2, []) && Run(t2, []) == t2;
    assert RunCallable(t1, calls[1..]) && Run(t1, calls[1..]) == t2;
  }

  lemma AdjacentSlots(mem: seq<char>, first: string, second: string, once: seq<char>, twice: seq<char>)
    requires CString(first) && CString(second) && |first| + |second| < |mem|
    requires forall k :: 0 <= k < |mem| ==> mem[k] == NUL
    requires once == Copied(mem, 0, first) && twice == Copied(once, |first|, second)
    ensures CStringAt(twice, 0) == first + second && CStringAt(twice, |first|) == second
  {
    var both := first + second;
    assert twice[..|first|] == first;
    assert twice[|first|..|both|] == second;
    assert twice[0..|both|] == twice[..|first|] + twice[|first|..|both|];
    assert twice[|both|] == NUL;
    assert CString(both);
    ReadsBack(twice, 0, both);
    ReadsBack(twice, |first|, second);
  }
}
