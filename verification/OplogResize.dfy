/** The rolling oplog resize: all secondaries that differ, then all primaries that differ, each resized
    and checked before the next one, stopping at the first failure. */
module OplogResize {
  import opened Wrappers

  datatype Item = Item(shard: string, host: string, primary: bool, maxSizeMb: int)

  datatype Command = Resize(item: nat) | LagCheck(item: nat) | HealthCheck(item: nat)

  /** A command of a run with its output, or no output when an error was reported; and whether it was
      issued at all: a lag check is not when no primary is found to ask. */
  datatype Entry = Entry(command: Command, output: Option<string>, issued: bool)

  /** Only a lag check can go missing, and then the code is told an empty output and no error. */
  predicate Genuine(e: Entry) {
    e.issued || (e.command.LagCheck? && e.output == Some(""))
  }

  /** A check fails only on the exact output "false"; the code does not trim what the shell printed. */
  predicate Passed(e: Entry) {
    e.output.Some? && (e.command.Resize? || e.output.value != "false")
  }

  function Commands(trace: seq<Entry>): seq<Command> {
    seq(|trace|, k requires 0 <= k < |trace| => trace[k].command)
  }

  predicate Differs(items: seq<Item>, desired: int, i: int) {
    0 <= i < |items| && items[i].maxSizeMb != desired
  }

  function CheckOf(primary: bool, i: nat): Command {
    if primary then HealthCheck(i) else LagCheck(i)
  }

  /** The commands of one pass over the first `n` items. */
  function Pass(items: seq<Item>, desired: int, primary: bool, n: nat): seq<Command>
    requires n <= |items|
  {
    if n == 0 then [] else
      Pass(items, desired, primary, n - 1) +
      (if items[n - 1].primary == primary && Differs(items, desired, n - 1)
       then [Resize(n - 1), CheckOf(primary, n - 1)] else [])
  }

  function Script(items: seq<Item>, desired: int): seq<Command> {
    Pass(items, desired, false, |items|) + Pass(items, desired, true, |items|)
  }

  /** A run issues a prefix of the script, and goes on only past commands that passed. */
  ghost predicate IsRun(trace: seq<Entry>, items: seq<Item>, desired: int) {
    && Commands(trace) <= Script(items, desired)
    && (forall k :: 0 <= k < |trace| ==> Genuine(trace[k]))
    && (forall k :: 0 <= k < |trace| - 1 ==> Passed(trace[k]))
  }

  ghost predicate AllPassed(trace: seq<Entry>) {
    forall k :: 0 <= k < |trace| ==> Passed(trace[k])
  }

  ghost predicate AllGenuine(trace: seq<Entry>) {
    forall k :: 0 <= k < |trace| ==> Genuine(trace[k])
  }

  /** Everything passed but the last command. */
  ghost predicate Stopped(trace: seq<Entry>) {
    trace != [] && !Passed(trace[|trace| - 1]) && AllPassed(trace[..|trace| - 1])
  }

  // ----- the code

  /** A command on a pod that is known. */
  method RunWithJSONResult(command: Command) returns (e: Entry)
    ensures e.command == command && e.issued
  {
    var failed := *;
    var output: string := *;
    e := Entry(command, if failed then None else Some(output), true);
  }

  /** `RunOnPrimary`: every try first looks for the primary, and the error of that search is only used
      to try again. The output and the error returned are those of the last try that found one. */
  method RunOnPrimary(command: Command) returns (e: Entry)
    requires command.LagCheck?
    ensures e.command == command && Genuine(e)
  {
    e := Entry(command, Some(""), false);
    var tries := 0;
    var done := false;
    while tries < 5 && !done
      invariant e.command == command && Genuine(e)
    {
      var found := *;
      if found {
        e := RunWithJSONResult(command);
        done := e.output.Some?;
      }
      tries := tries + 1;
    }
  }

  method RunCheck(command: Command) returns (e: Entry)
    requires !command.Resize?
    ensures e.command == command && Genuine(e)
  {
    if command.LagCheck? {
      e := RunOnPrimary(command);
    } else {
      e := RunWithJSONResult(command);
    }
  }

  /** The body of either loop: resize, then check. */
  method ResizeAndCheck(trace: seq<Entry>, primary: bool, i: nat) returns (ok: bool, after: seq<Entry>)
    requires AllPassed(trace) && AllGenuine(trace)
    ensures AllGenuine(after)
    ensures ok ==> AllPassed(after) && Commands(after) == Commands(trace) + [Resize(i), CheckOf(primary, i)]
    ensures !ok ==> Stopped(after) && Commands(after) <= Commands(trace) + [Resize(i), CheckOf(primary, i)]
  {
    var resize := RunWithJSONResult(Resize(i));
    after := trace + [resize];
    if resize.output.None? {
      assert after[..|after| - 1] == trace;
      return false, after;
    }
    var check := RunCheck(CheckOf(primary, i));
    ghost var before := after;
    after := after + [check];
    assert after[..|after| - 1] == before;
    ok := check.output.Some? && check.output.value != "false";
  }

  /** One of the two loops, which differ in the items they pass over and in the check. */
  method ResizePass(desired: int, items: seq<Item>, primary: bool, start: seq<Entry>) returns (ok: bool, trace: seq<Entry>)
    requires AllPassed(start) && AllGenuine(start)
    ensures AllGenuine(trace)
    ensures ok ==> AllPassed(trace) && Commands(trace) == Commands(start) + Pass(items, desired, primary, |items|)
    ensures !ok ==> Stopped(trace) && Commands(trace) <= Commands(start) + Pass(items, desired, primary, |items|)
  {
    trace := start;
    for i := 0 to |items|
      invariant AllPassed(trace) && AllGenuine(trace) && Commands(trace) == Commands(start) + Pass(items, desired, primary, i)
    {
      if items[i].primary == primary && desired != items[i].maxSizeMb {
        PassGrows(items, desired, primary, i + 1, |items|);
        ok, trace := ResizeAndCheck(trace, primary, i);
        assert Commands(trace) <= Commands(start) + Pass(items, desired, primary, i + 1);
        if !ok {
          return;
        }
      }
    }
    ok := true;
  }

  method UpdateOplogSize(desired: int, items: seq<Item>) returns (ok: bool, trace: seq<Entry>)
    ensures IsRun(trace, items, desired)
    ensures ok ==> Commands(trace) == Script(items, desired) && AllPassed(trace)
    ensures !ok ==> Stopped(trace)
    ensures ok ==> forall i: nat :: i < |items| && items[i].maxSizeMb != desired ==> Resize(i) in Commands(trace)
    ensures forall k :: 0 <= k < |trace| ==>
              var i := trace[k].command.item; i < |items| && items[i].maxSizeMb != desired
    ensures ok ==> forall k :: 0 <= k < |trace| ==>
              trace[k].output.Some? && (trace[k].output.value == "false" ==> trace[k].command.Resize?)
    ensures !ok ==> trace != [] && var last := trace[|trace| - 1];
              last.output == None || (!last.command.Resize? && last.output == Some("false"))
  {
    ok, trace := ResizePass(desired, items, false, []);
    if !ok {
      assert Commands(trace) <= Script(items, desired);
      TouchedOnce(trace, items, desired);
      return;
    }
    ok, trace := ResizePass(desired, items, true, trace);
    TouchedOnce(trace, items, desired);
    if ok {
      forall i: nat | i < |items| && items[i].maxSizeMb != desired
        ensures Resize(i) in Commands(trace)
      {
        ScriptCovers(items, desired, i);
      }
    }
  }

  lemma {:induction false} PassGrows(items: seq<Item>, desired: int, primary: bool, m: nat, n: nat)
    requires m <= n <= |items|
    ensures Pass(items, desired, primary, m) <= Pass(items, desired, primary, n)
  {
    if m < n {
      PassGrows(items, desired, primary, m, n - 1);
    }
  }

  /** The `Condition` of the two oplog steps. */
  method NeedsResize(desired: int, items: seq<Item>) returns (needed: bool)
    ensures needed <==> Script(items, desired) != []
    ensures needed <==> exists i :: 0 <= i < |items| && items[i].maxSizeMb != desired
  {
    needed := false;
    for i := 0 to |items|
      invariant needed <==> exists k :: 0 <= k < i && items[k].maxSizeMb != desired
    {
      if items[i].maxSizeMb != desired {
        needed := true;
      }
    }
    if needed {
      var k: nat :| k < |items| && items[k].maxSizeMb != desired;
      ScriptCovers(items, desired, k);
    } else {
      NothingToDo(items, desired, false, |items|);
      NothingToDo(items, desired, true, |items|);
    }
  }

  lemma {:induction false} NothingToDo(items: seq<Item>, desired: int, primary: bool, n: nat)
    requires n <= |items| && forall k :: 0 <= k < |items| ==> !Differs(items, desired, k)
    ensures Pass(items, desired, primary, n) == []
  {
    if n > 0 {
      NothingToDo(items, desired, primary, n - 1);
    }
  }

  // ----- what the script says

  /** Every command of a pass concerns an item of its kind that differs, a resize is followed at once
      by the check of the same item, and resizes go through the items in order. */
  ghost predicate Paired(pass: seq<Command>, items: seq<Item>, desired: int, primary: bool, n: nat)
    requires n <= |items|
  {
    && (forall p :: 0 <= p < |pass| ==>
          pass[p].item < n && Differs(items, desired, pass[p].item) && items[pass[p].item].primary == primary)
    && (forall p :: 0 <= p < |pass| && pass[p].Resize? ==> Checked(pass, p, primary))
    && (forall p, q :: 0 <= p < q < |pass| && pass[p].Resize? && pass[q].Resize? ==> pass[p].item < pass[q].item)
  }

  predicate Checked(pass: seq<Command>, p: nat, primary: bool)
    requires p < |pass|
  {
    p + 1 < |pass| && pass[p + 1] == CheckOf(primary, pass[p].item)
  }

  lemma PassIsPaired(items: seq<Item>, desired: int, primary: bool, n: nat)
    requires n <= |items|
    ensures Paired(Pass(items, desired, primary, n), items, desired, primary, n)
  {
    PassTouchesDiffering(items, desired, primary, n);
    PassIsChecked(items, desired, primary, n);
    PassIsOrdered(items, desired, primary, n);
  }

  lemma OneMoreItem(items: seq<Item>, desired: int, primary: bool, n: nat)
    requires 0 < n <= |items|
    ensures var before, pass := Pass(items, desired, primary, n - 1), Pass(items, desired, primary, n);
            || pass == before
            || (pass == before + [Resize(n - 1), CheckOf(primary, n - 1)] && items[n - 1].primary == primary &&
                Differs(items, desired, n - 1))
  {
  }

  lemma {:induction false} PassTouchesDiffering(items: seq<Item>, desired: int, primary: bool, n: nat)
    requires n <= |items|
    ensures var pass := Pass(items, desired, primary, n);
            forall p :: 0 <= p < |pass| ==>
              pass[p].item < n && Differs(items, desired, pass[p].item) && items[pass[p].item].primary == primary
  {
    if n > 0 {
      PassTouchesDiffering(items, desired, primary, n - 1);
      OneMoreItem(items, desired, primary, n);
    }
  }

  lemma {:induction false} PassIsChecked(items: seq<Item>, desired: int, primary: bool, n: nat)
    requires n <= |items|
    ensures var pass := Pass(items, desired, primary, n);
            forall p :: 0 <= p < |pass| && pass[p].Resize? ==> Checked(pass, p, primary)
  {
    if n > 0 {
      PassIsChecked(items, desired, primary, n - 1);
      OneMoreItem(items, desired, primary, n);
      var before, pass := Pass(items, desired, primary, n - 1), Pass(items, desired, primary, n);
      forall p: nat | p < |before| && before[p].Resize?
        ensures Checked(pass, p, primary)
      {
        assert Checked(before, p, primary);
      }
    }
  }

  lemma {:induction false} PassIsOrdered(items: seq<Item>, desired: int, primary: bool, n: nat)
    requires n <= |items|
    ensures var pass := Pass(items, desired, primary, n);
            forall p, q :: 0 <= p < q < |pass| && pass[p].Resize? && pass[q].Resize? ==> pass[p].item < pass[q].item
  {
    if n > 0 {
      PassTouchesDiffering(items, desired, primary, n - 1);
      PassIsOrdered(items, desired, primary, n - 1);
      OneMoreItem(items, desired, primary, n);
    }
  }

  lemma {:induction false} PassCovers(items: seq<Item>, desired: int, primary: bool, n: nat, i: nat)
    requires i < n <= |items| && Differs(items, desired, i) && items[i].primary == primary
    ensures exists p :: 0 <= p < |Pass(items, desired, primary, n)| && Pass(items, desired, primary, n)[p] == Resize(i)
  {
    var pass := Pass(items, desired, primary, n);
    if i == n - 1 {
      assert pass[|pass| - 2] == Resize(i);
    } else {
      PassCovers(items, desired, primary, n - 1, i);
      var before := Pass(items, desired, primary, n - 1);
      var p :| 0 <= p < |before| && before[p] == Resize(i);
      assert pass[p] == Resize(i);
    }
  }

  /** The two halves of the script, by position. */
  lemma ScriptAt(items: seq<Item>, desired: int, p: int)
    requires 0 <= p < |Script(items, desired)|
    ensures var script, secondaries, primaries :=
              Script(items, desired), Pass(items, desired, false, |items|), Pass(items, desired, true, |items|);
            script[p] == if p < |secondaries| then secondaries[p] else primaries[p - |secondaries|]
    ensures Differs(items, desired, Script(items, desired)[p].item)
    ensures Script(items, desired)[p].Resize? ==>
              Checked(Script(items, desired), p, items[Script(items, desired)[p].item].primary)
    ensures items[Script(items, desired)[p].item].primary <==> p >= |Pass(items, desired, false, |items|)|
  {
    PassIsPaired(items, desired, false, |items|);
    PassIsPaired(items, desired, true, |items|);
    var secondaries, primaries := Pass(items, desired, false, |items|), Pass(items, desired, true, |items|);
    if Script(items, desired)[p].Resize? {
      if p < |secondaries| {
        assert Checked(secondaries, p, false);
      } else {
        assert Checked(primaries, p - |secondaries|, true);
      }
    }
  }

  lemma ScriptResizesOnce(items: seq<Item>, desired: int, p: int, q: int)
    requires 0 <= p < q < |Script(items, desired)|
    requires Script(items, desired)[p].Resize? && Script(items, desired)[q].Resize?
    ensures Script(items, desired)[p].item != Script(items, desired)[q].item
  {
    ScriptAt(items, desired, p);
    ScriptAt(items, desired, q);
    PassIsPaired(items, desired, false, |items|);
    PassIsPaired(items, desired, true, |items|);
  }

  lemma ScriptCovers(items: seq<Item>, desired: int, i: nat)
    requires Differs(items, desired, i)
    ensures exists p :: 0 <= p < |Script(items, desired)| && Script(items, desired)[p] == Resize(i)
  {
    var secondaries := Pass(items, desired, false, |items|);
    PassCovers(items, desired, items[i].primary, |items|, i);
    var pass := Pass(items, desired, items[i].primary, |items|);
    var p :| 0 <= p < |pass| && pass[p] == Resize(i);
    assert Script(items, desired)[if items[i].primary then |secondaries| + p else p] == Resize(i);
  }

  /** On every run no item is resized twice, and none that already has the size is touched. */
  lemma TouchedOnce(trace: seq<Entry>, items: seq<Item>, desired: int)
    requires IsRun(trace, items, desired)
    ensures forall p :: 0 <= p < |trace| ==>
              var i := trace[p].command.item; i < |items| && items[i].maxSizeMb != desired
    ensures forall p, q :: 0 <= p < q < |trace| && trace[p].command.Resize? && trace[q].command.Resize? ==>
              trace[p].command.item != trace[q].command.item
  {
    forall p | 0 <= p < |trace|
      ensures trace[p].command == Script(items, desired)[p] && Differs(items, desired, trace[p].command.item)
    {
      assert Commands(trace)[p] == trace[p].command;
      ScriptAt(items, desired, p);
    }
    forall p, q | 0 <= p < q < |trace| && trace[p].command.Resize? && trace[q].command.Resize?
      ensures trace[p].command.item != trace[q].command.item
    {
      ScriptResizesOnce(items, desired, p, q);
    }
  }

  /** A complete run has resized every item that differs, exactly once, and the check right after it
      passed. */
  lemma CompleteRunResizesAll(trace: seq<Entry>, items: seq<Item>, desired: int, i: nat)
    requires IsRun(trace, items, desired) && Commands(trace) == Script(items, desired) && AllPassed(trace)
    requires i < |items| && items[i].maxSizeMb != desired
    ensures exists p :: 0 <= p < |trace| - 1 && trace[p].command == Resize(i) && Passed(trace[p]) &&
              trace[p + 1].command == (if items[i].primary then HealthCheck(i) else LagCheck(i)) && Passed(trace[p + 1])
    ensures forall p, q :: 0 <= p < q < |trace| ==> !(trace[p].command == Resize(i) && trace[q].command == Resize(i))
  {
    ScriptCovers(items, desired, i);
    var p :| 0 <= p < |Script(items, desired)| && Script(items, desired)[p] == Resize(i);
    ScriptAt(items, desired, p);
    assert Commands(trace)[p] == trace[p].command;
    assert Commands(trace)[p + 1] == trace[p + 1].command;
    TouchedOnce(trace, items, desired);
  }

  /** Order of the resize, on every run, error exits included: before a primary is resized, every
      secondary that differs has been resized, and its lag check did not stop the run. */
  lemma SecondariesFirst(trace: seq<Entry>, items: seq<Item>, desired: int, p: nat, j: nat)
    requires IsRun(trace, items, desired) && p < |trace|
    requires trace[p].command.Resize? && trace[p].command.item < |items| && items[trace[p].command.item].primary
    requires j < |items| && items[j].maxSizeMb != desired && !items[j].primary
    ensures exists q :: 0 <= q < p - 1 && trace[q].command == Resize(j) && Passed(trace[q]) &&
              trace[q + 1].command == LagCheck(j) && Passed(trace[q + 1])
  {
    var secondaries, script := Pass(items, desired, false, |items|), Script(items, desired);
    PassCovers(items, desired, false, |items|, j);
    var q :| 0 <= q < |secondaries| && secondaries[q] == Resize(j);
    PassIsPaired(items, desired, false, |items|);
    assert Checked(secondaries, q, false);
    ScriptAt(items, desired, p);
    ScriptAt(items, desired, q);
    ScriptAt(items, desired, q + 1);
    assert Commands(trace)[p] == script[p] && Commands(trace)[q] == script[q] && Commands(trace)[q + 1] == script[q + 1];
  }

  // ----- answers with white space around them

  predicate Space(c: char) {
    c == ' ' || c == '\t' || c == '\r' || c == '\n'
  }

  function TrimmedLeft(s: string): string {
    if s != "" && Space(s[0]) then TrimmedLeft(s[1..]) else s
  }

  function TrimmedRight(s: string): string {
    if s != "" && Space(s[|s| - 1]) then TrimmedRight(s[..|s| - 1]) else s
  }

  /** What the shell answered, without the white space around it. */
  function Trimmed(s: string): string {
    TrimmedRight(TrimmedLeft(s))
  }

  /** The command's answer is negative, however it is printed. */
  predicate Negative(e: Entry) {
    !e.command.Resize? && e.output.Some? && Trimmed(e.output.value) == "false"
  }

  ghost predicate Bare(trace: seq<Entry>) {
    forall k :: 0 <= k < |trace| && trace[k].output.Some? ==> Trimmed(trace[k].output.value) == trace[k].output.value
  }

  ghost predicate LineEnded(trace: seq<Entry>) {
    forall k :: 0 <= k < |trace| && trace[k].issued && trace[k].output.Some? ==>
      trace[k].output.value != "" && trace[k].output.value[|trace[k].output.value| - 1] == '\n'
  }

  /** The untrimmed comparison: a negative answer passes exactly when there is white space around it. */
  lemma NegativePassesIff(e: Entry)
    requires Negative(e)
    ensures Passed(e) <==> Trimmed(e.output.value) != e.output.value
  {
  }

  /** On every run a negative answer is the last thing that happens, unless it has white space around it. */
  lemma NegativeStops(trace: seq<Entry>, items: seq<Item>, desired: int, k: nat)
    requires IsRun(trace, items, desired) && k < |trace| && Negative(trace[k])
    ensures k == |trace| - 1 || Trimmed(trace[k].output.value) != trace[k].output.value
  {
  }

  /** If the shell ends every output with a line end, the lag and health gates stop nothing: a run stops
      only at a command that reported an error, and passes every negative answer before it. */
  lemma LineEndsOpenTheGates(trace: seq<Entry>)
    requires LineEnded(trace) && AllGenuine(trace)
    ensures Stopped(trace) ==> trace[|trace| - 1].output.None?
    ensures forall k :: 0 <= k < |trace| && Negative(trace[k]) ==> Passed(trace[k])
  {
    assert "false"[|"false"| - 1] != '\n';
  }

  /** If no output has white space around it, no secondary whose lag check was answered negatively is
      passed over. The check may still not have been issued. */
  lemma BareGateStopsNegatives(trace: seq<Entry>, items: seq<Item>, desired: int, p: nat, j: nat)
    requires IsRun(trace, items, desired) && Bare(trace) && p < |trace|
    requires trace[p].command.Resize? && trace[p].command.item < |items| && items[trace[p].command.item].primary
    requires j < |items| && items[j].maxSizeMb != desired && !items[j].primary
    ensures exists q :: 0 <= q < p - 1 && trace[q].command == Resize(j) && trace[q].output.Some? &&
              trace[q + 1].command == LagCheck(j) && trace[q + 1].output.Some? && !Negative(trace[q + 1])
  {
    SecondariesFirst(trace, items, desired, p, j);
    var q :| 0 <= q < p - 1 && trace[q].command == Resize(j) && Passed(trace[q]) &&
             trace[q + 1].command == LagCheck(j) && Passed(trace[q + 1]);
    assert trace[q + 1].output.value != "false";
  }

  // ----- lag checks that nobody answers

  /** The run in which no primary is ever found: every lag check goes missing. */
  function BlindRun(commands: seq<Command>): seq<Entry> {
    seq(|commands|, k requires 0 <= k < |commands| =>
      Entry(commands[k], Some(if commands[k].LagCheck? then "" else "true"), !commands[k].LagCheck?))
  }

  /** For every report such a run goes through: it resizes all items that differ, primaries included,
      without one lag check having been issued, and with nothing for a trimmed comparison to catch. */
  lemma MissingChecksPass(items: seq<Item>, desired: int)
    ensures var trace := BlindRun(Script(items, desired));
            && IsRun(trace, items, desired) && Commands(trace) == Script(items, desired) && AllPassed(trace)
            && Bare(trace)
            && forall k :: 0 <= k < |trace| ==> !Negative(trace[k]) && (trace[k].command.LagCheck? ==> !trace[k].issued)
  {
    var trace := BlindRun(Script(items, desired));
    assert Commands(trace) == Script(items, desired);
    assert Trimmed("") == "" && Trimmed("true") == "true" && "true"[0] != "false"[0];
  }

  /** Every lag check before `p` was answered as the JavaScript means it, with true or false. */
  ghost predicate Answered(trace: seq<Entry>, p: nat) {
    forall k :: 0 <= k < p && k < |trace| && trace[k].command.LagCheck? ==>
      trace[k].output == Some("true") || trace[k].output == Some("false")
  }

  ghost predicate Confirmed(e: Entry) {
    e.issued && e.output == Some("true")
  }

  /** On every run the lag checks that were passed all confirmed their member exactly when all were
      answered. */
  lemma ConfirmedIffAnswered(trace: seq<Entry>, items: seq<Item>, desired: int, p: nat)
    requires IsRun(trace, items, desired) && p < |trace|
    ensures (forall k :: 0 <= k < p && trace[k].command.LagCheck? ==> Confirmed(trace[k])) <==> Answered(trace, p)
  {
    assert "true"[0] != "false"[0];
    forall k | 0 <= k < p && trace[k].command.LagCheck?
      ensures Confirmed(trace[k]) <==> trace[k].output == Some("true") || trace[k].output == Some("false")
    {
      assert Passed(trace[k]) && Genuine(trace[k]);
    }
  }

  /** The gate does what it is there for exactly when all lag checks before are answered: then, and only
      then, every secondary that differs has been resized, and confirmed to have no lag, before the
      primary at `p` is resized. */
  lemma SecondariesFirstInTruth(trace: seq<Entry>, items: seq<Item>, desired: int, p: nat)
    requires IsRun(trace, items, desired) && p < |trace|
    requires trace[p].command.Resize? && trace[p].command.item < |items| && items[trace[p].command.item].primary
    ensures Answered(trace, p) <==>
            forall j: nat :: j < |items| && items[j].maxSizeMb != desired && !items[j].primary ==> ConfirmedBefore(trace, p, j)
  {
    if Answered(trace, p) {
      forall j: nat | j < |items| && items[j].maxSizeMb != desired && !items[j].primary
        ensures ConfirmedBefore(trace, p, j)
      {
        AnsweredConfirms(trace, items, desired, p, j);
      }
    }
    if forall j: nat :: j < |items| && items[j].maxSizeMb != desired && !items[j].primary ==> ConfirmedBefore(trace, p, j) {
      forall k: nat | k < p && trace[k].command.LagCheck?
        ensures Confirmed(trace[k])
      {
        OwnResizeBefore(trace, items, desired, k);
        OwnCheckConfirmed(trace, items, desired, p, k);
      }
      ConfirmedIffAnswered(trace, items, desired, p);
    }
  }

  lemma AnsweredConfirms(trace: seq<Entry>, items: seq<Item>, desired: int, p: nat, j: nat)
    requires IsRun(trace, items, desired) && p < |trace| && Answered(trace, p)
    requires trace[p].command.Resize? && trace[p].command.item < |items| && items[trace[p].command.item].primary
    requires j < |items| && items[j].maxSizeMb != desired && !items[j].primary
    ensures ConfirmedBefore(trace, p, j)
  {
    ConfirmedIffAnswered(trace, items, desired, p);
    SecondariesFirst(trace, items, desired, p, j);
    var q :| 0 <= q < p - 1 && trace[q].command == Resize(j) && Passed(trace[q]) &&
             trace[q + 1].command == LagCheck(j) && Passed(trace[q + 1]);
    assert ConfirmedAt(trace, p, j, q);
  }

  /** An item is checked once, so its confirmation is the answer of the check at `k`. */
  lemma OwnCheckConfirmed(trace: seq<Entry>, items: seq<Item>, desired: int, p: nat, k: nat)
    requires IsRun(trace, items, desired) && k < p < |trace| && trace[k].command.LagCheck?
    requires ConfirmedBefore(trace, p, trace[k].command.item)
    ensures Confirmed(trace[k])
  {
    OwnResizeBefore(trace, items, desired, k);
    var q: nat :| ConfirmedAt(trace, p, trace[k].command.item, q);
    TouchedOnce(trace, items, desired);
  }

  /** Item `j` was resized at `q`, and confirmed right after. */
  ghost predicate ConfirmedAt(trace: seq<Entry>, p: nat, j: nat, q: nat) {
    q + 1 < p <= |trace| && trace[q].command == Resize(j) && trace[q].output.Some? &&
    trace[q + 1].command == LagCheck(j) && Confirmed(trace[q + 1])
  }

  ghost predicate ConfirmedBefore(trace: seq<Entry>, p: nat, j: nat) {
    exists q: nat :: ConfirmedAt(trace, p, j, q)
  }

  /** A lag check is that of a secondary that differs and follows its resize. */
  lemma OwnResizeBefore(trace: seq<Entry>, items: seq<Item>, desired: int, k: int)
    requires IsRun(trace, items, desired) && 0 <= k < |trace| && trace[k].command.LagCheck?
    ensures 0 < k && trace[k - 1].command == Resize(trace[k].command.item)
    ensures var i := trace[k].command.item; i < |items| && items[i].maxSizeMb != desired && !items[i].primary
  {
    var script, secondaries := Script(items, desired), Pass(items, desired, false, |items|);
    assert Commands(trace)[k] == script[k] == trace[k].command;
    ScriptAt(items, desired, k);
    ChecksFollow(items, desired, false, |items|);
    ChecksFollow(items, desired, true, |items|);
    assert k < |secondaries|;
    assert Commands(trace)[k - 1] == script[k - 1] == secondaries[k - 1];
  }

  lemma {:induction false} ChecksFollow(items: seq<Item>, desired: int, primary: bool, n: nat)
    requires n <= |items|
    ensures var pass := Pass(items, desired, primary, n);
            forall p :: 0 <= p < |pass| && !pass[p].Resize? ==>
              0 < p && pass[p] == CheckOf(primary, pass[p].item) && pass[p - 1] == Resize(pass[p].item)
  {
    if n > 0 {
      ChecksFollow(items, desired, primary, n - 1);
      OneMoreItem(items, desired, primary, n);
    }
  }
}
