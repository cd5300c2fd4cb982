/**
The vulnerability gate: the scanner's stream folded into one advisory per id, and the verdict against
the recorded suppressions.

Advisory ids are only compared; a number stands for an id's place in byte order.
*/
module VulnGate {
  import opened Options
  import opened Sequences

  type Id = nat
  type Version(==, !new)
  type Module(==, !new)
  type Token(==, !new)

  // How deep an advisory was traced.
  type Level = n: nat | n <= 2
  const MODULE: Level := 0
  const PACKAGE: Level := 1
  const SYMBOL: Level := 2

  // A step of a trace: whether it names a package, and whether it names a function.
  datatype Frame = Frame(implicated: Module, package: bool, function_: bool)

  // `osv` is absent when the text is no advisory id; `fixed` when no version is named.
  datatype Finding = Finding(osv: Option<Id>, fixed: Option<Version>, trace: seq<Frame>)

  datatype Advisory = Advisory(id: Id, level: Level, implicated: Module, fixed: Option<Version>, trace: seq<Frame>)

  datatype Config = Config(scanner: Token, level: Token, mode: Token)

  // What this gate insists on reading.
  datatype Wanted = Wanted(scanner: Token, level: Token, mode: Token)

  datatype Message = ConfigMessage(config: Config) | FindingMessage(finding: Finding) | OtherMessage | Garbled

  datatype Error = Unparsable | UnknownId | EmptyTrace | NoConfig | WrongScanner | WrongLevel | WrongMode

  datatype Result<T> = Ok(value: T) | Err(error: Error)

  // ---- one finding ------------------------------------------------------------------------------------------

  // The deepest step of a trace.
  ghost predicate IsLevelOf(level: Level, trace: seq<Frame>) {
    && (level == SYMBOL <==> exists i :: 0 <= i < |trace| && trace[i].function_)
    && (level == MODULE <==> forall i :: 0 <= i < |trace| ==> !trace[i].function_ && !trace[i].package)
  }

  // The same as a function, for what follows.
  function Depth(trace: seq<Frame>): (level: Level)
    ensures IsLevelOf(level, trace)
  {
    if exists i :: 0 <= i < |trace| && trace[i].function_ then SYMBOL
    else if exists i :: 0 <= i < |trace| && trace[i].package then PACKAGE
    else MODULE
  }

  lemma OneLevel(a: Level, b: Level, trace: seq<Frame>)
    requires IsLevelOf(a, trace) && IsLevelOf(b, trace)
    ensures a == b
  {
  }

  method LevelOf(trace: seq<Frame>) returns (level: Level)
    ensures IsLevelOf(level, trace) && level == Depth(trace)
  {
    level := MODULE;
    for i := 0 to |trace|
      invariant level == SYMBOL <==> exists k :: 0 <= k < i && trace[k].function_
      invariant level == MODULE <==> forall k :: 0 <= k < i ==> !trace[k].function_ && !trace[k].package
    {
      var f := trace[i];
      if f.function_ {
        if SYMBOL > level {
          level := SYMBOL;
        }
      } else if f.package {
        if PACKAGE > level {
          level := PACKAGE;
        }
      }
    }
    OneLevel(level, Depth(trace), trace);
  }

  predicate WellFormed(f: Finding) {
    f.osv.Some? && f.trace != []
  }

  function AdvisoryOf(f: Finding): Result<Advisory> {
    if f.osv.None? then Err(UnknownId)
    else if f.trace == [] then Err(EmptyTrace)
    else Ok(Advisory(f.osv.value, Depth(f.trace), f.trace[0].implicated, f.fixed, f.trace))
  }

  method ReadFinding(f: Finding) returns (r: Result<Advisory>)
    ensures r == AdvisoryOf(f)
  {
    if f.osv.None? {
      return Err(UnknownId);
    }
    if |f.trace| == 0 {
      return Err(EmptyTrace);
    }
    var level := LevelOf(f.trace);
    return Ok(Advisory(f.osv.value, level, f.trace[0].implicated, f.fixed, f.trace));
  }

  // ---- the fold -----------------------------------------------------------------------------------------------

  // What is kept of an advisory when another finding for it comes.
  function Merged(prev: Advisory, a: Advisory): Advisory {
    if a.level > prev.level then
      if a.fixed.None? then a.(fixed := prev.fixed) else a
    else if prev.fixed.None? && a.fixed.Some? then prev.(fixed := a.fixed)
    else prev
  }

  // What is kept for an id after the first n findings.
  function Kept(fs: seq<Finding>, id: Id, n: nat): Option<Advisory>
    requires n <= |fs|
  {
    if n == 0 then None
    else
      var before := Kept(fs, id, n - 1);
      match AdvisoryOf(fs[n - 1])
      case Err(_) => before
      case Ok(a) => if a.id != id then before else if before.None? then Some(a) else Some(Merged(before.value, a))
  }

  // Finding k is about an id.
  predicate Names(fs: seq<Finding>, k: int, id: Id) {
    0 <= k < |fs| && WellFormed(fs[k]) && fs[k].osv.value == id
  }

  // The advisory an id comes to: traced as deep as any finding of it, by a finding that deep; fixed exactly
  // if some finding names a fix, and then by one that is named.
  ghost predicate Summarises(a: Advisory, fs: seq<Finding>, n: nat) {
    && (exists k :: k < n && Names(fs, k, a.id) && Depth(fs[k].trace) == a.level
                    && fs[k].trace == a.trace && fs[k].trace[0].implicated == a.implicated)
    && (forall k :: k < n && Names(fs, k, a.id) ==> Depth(fs[k].trace) <= a.level)
    && (a.fixed.Some? <==> exists k :: k < n && Names(fs, k, a.id) && fs[k].fixed.Some?)
    && (a.fixed.Some? ==> exists k :: k < n && Names(fs, k, a.id) && fs[k].fixed == a.fixed)
  }

  lemma Follow(a: Advisory, b: Advisory, fs: seq<Finding>, n: nat)
    requires n < |fs| && WellFormed(fs[n]) && AdvisoryOf(fs[n]) == Ok(b) && a.id == b.id
    requires Summarises(a, fs, n)
    ensures Summarises(Merged(a, b), fs, n + 1)
  {
    hide Depth;
    var m := Merged(a, b);
    assert Names(fs, n, b.id);
    var k :| k < n && Names(fs, k, a.id) && Depth(fs[k].trace) == a.level
             && fs[k].trace == a.trace && fs[k].trace[0].implicated == a.implicated;
    var w := if b.level > a.level then n else k;
    assert Names(fs, w, m.id) && Depth(fs[w].trace) == m.level && fs[w].trace == m.trace;
    forall j | j < n + 1 && Names(fs, j, m.id) ensures Depth(fs[j].trace) <= m.level {
      assert j < n ==> Names(fs, j, a.id);
    }
    FixKept(a, b, fs, n);
  }

  lemma FixKept(a: Advisory, b: Advisory, fs: seq<Finding>, n: nat)
    requires n < |fs| && WellFormed(fs[n]) && AdvisoryOf(fs[n]) == Ok(b) && a.id == b.id
    requires Summarises(a, fs, n)
    ensures var m := Merged(a, b);
            && (m.fixed.Some? <==> exists k :: k < n + 1 && Names(fs, k, m.id) && fs[k].fixed.Some?)
            && (m.fixed.Some? ==> exists k :: k < n + 1 && Names(fs, k, m.id) && fs[k].fixed == m.fixed)
  {
    hide Depth;
    var m := Merged(a, b);
    assert Names(fs, n, b.id);
    if a.fixed.Some? {
      var k :| k < n && Names(fs, k, a.id) && fs[k].fixed == a.fixed;
      assert k < n + 1 && Names(fs, k, m.id);
    }
  }

  /** The fold says what the findings say: an advisory for exactly the ids that are found, each the summary
      of its findings. */
  lemma {:induction false} KeptSummarises(fs: seq<Finding>, id: Id, n: nat)
    requires n <= |fs|
    ensures Kept(fs, id, n).Some? <==> exists k :: k < n && Names(fs, k, id)
    ensures Kept(fs, id, n).Some? ==> Kept(fs, id, n).value.id == id && Summarises(Kept(fs, id, n).value, fs, n)
  {
    hide Depth, Summarises, Merged;
    if n > 0 {
      KeptSummarises(fs, id, n - 1);
      var before := Kept(fs, id, n - 1);
      if Names(fs, n - 1, id) {
        var b := AdvisoryOf(fs[n - 1]).value;
        if before.Some? {
          Follow(before.value, b, fs, n - 1);
          MergedId(before.value, b);
        } else {
          FirstSummary(b, fs, n - 1);
        }
      } else if before.Some? {
        Unmoved(before.value, fs, n - 1);
      }
    }
  }

  lemma MergedId(a: Advisory, b: Advisory)
    requires a.id == b.id
    ensures Merged(a, b).id == a.id
  {
  }

  lemma FirstSummary(b: Advisory, fs: seq<Finding>, n: nat)
    requires n < |fs| && AdvisoryOf(fs[n]) == Ok(b) && forall k :: k < n ==> !Names(fs, k, b.id)
    ensures Summarises(b, fs, n + 1)
  {
    hide Depth;
    assert Names(fs, n, b.id);
  }

  lemma Unmoved(a: Advisory, fs: seq<Finding>, n: nat)
    requires n < |fs| && !Names(fs, n, a.id) && Summarises(a, fs, n)
    ensures Summarises(a, fs, n + 1)
  {
    hide Depth;
    forall k | k < n + 1 && Names(fs, k, a.id) ensures k < n {
    }
    if a.fixed.Some? {
      var k :| k < n && Names(fs, k, a.id) && fs[k].fixed == a.fixed;
      assert k < n + 1 && Names(fs, k, a.id);
    }
  }

  // A finding of its id deeper than every one before it.
  ghost predicate Deepens(fs: seq<Finding>, k: int, id: Id) {
    Names(fs, k, id) && forall j :: 0 <= j < k && Names(fs, j, id) ==> Depth(fs[j].trace) < Depth(fs[k].trace)
  }

  // What is kept comes from these findings: the trace of the first that is deepest, and the fix of the last
  // that deepened its id and names one, or else of the first that names one.
  ghost predicate Chosen(a: Advisory, fs: seq<Finding>, n: nat) {
    && (exists k :: LastDeepens(a, fs, n, k))
    && (a.fixed.Some? ==> ChosenFix(a, fs, n))
  }

  ghost predicate LastDeepens(a: Advisory, fs: seq<Finding>, n: nat, k: int) {
    && k < n && Deepens(fs, k, a.id) && fs[k].trace == a.trace
    && forall j :: k < j < n ==> !Deepens(fs, j, a.id)
  }

  ghost predicate ChosenFix(a: Advisory, fs: seq<Finding>, n: nat) {
    || (exists k :: LastNamedFix(a, fs, n, k))
    || ((forall k :: k < n && Deepens(fs, k, a.id) ==> fs[k].fixed.None?) && exists k :: FirstFix(a, fs, n, k))
  }

  ghost predicate LastNamedFix(a: Advisory, fs: seq<Finding>, n: nat, k: int) {
    && k < n && Deepens(fs, k, a.id) && fs[k].fixed == a.fixed
    && forall j :: k < j < n && Deepens(fs, j, a.id) ==> fs[j].fixed.None?
  }

  ghost predicate FirstFix(a: Advisory, fs: seq<Finding>, n: nat, k: int) {
    && k < n && Names(fs, k, a.id) && fs[k].fixed == a.fixed
    && forall j :: j < k && Names(fs, j, a.id) ==> fs[j].fixed.None?
  }

  lemma ChosenFirst(b: Advisory, fs: seq<Finding>, n: nat)
    requires n < |fs| && AdvisoryOf(fs[n]) == Ok(b) && forall k :: k < n ==> !Names(fs, k, b.id)
    ensures Chosen(b, fs, n + 1)
  {
    hide Depth;
    assert LastDeepens(b, fs, n + 1, n);
    if b.fixed.Some? {
      assert LastNamedFix(b, fs, n + 1, n);
    }
  }

  lemma DeepensNext(a: Advisory, b: Advisory, fs: seq<Finding>, n: nat)
    requires n < |fs| && AdvisoryOf(fs[n]) == Ok(b) && a.id == b.id && Summarises(a, fs, n)
    ensures Names(fs, n, a.id) && (Deepens(fs, n, a.id) <==> b.level > a.level)
    ensures a.fixed.None? ==> forall j :: j < n && Names(fs, j, a.id) ==> fs[j].fixed.None?
  {
    hide Depth;
  }

  lemma ChosenDeeper(a: Advisory, b: Advisory, fs: seq<Finding>, n: nat)
    requires n < |fs| && AdvisoryOf(fs[n]) == Ok(b) && a.id == b.id && b.level > a.level
    requires Deepens(fs, n, a.id) && Chosen(a, fs, n)
    ensures Chosen(Merged(a, b), fs, n + 1)
  {
    hide Depth, Deepens, Names;
    var m := Merged(a, b);
    assert LastDeepens(m, fs, n + 1, n);
    if b.fixed.Some? {
      assert LastNamedFix(m, fs, n + 1, n);
    } else if a.fixed.Some? {
      FixStays(a, m, fs, n);
    }
  }

  lemma ChosenStill(a: Advisory, b: Advisory, fs: seq<Finding>, n: nat)
    requires n < |fs| && AdvisoryOf(fs[n]) == Ok(b) && a.id == b.id && b.level <= a.level
    requires Names(fs, n, a.id) && !Deepens(fs, n, a.id) && Chosen(a, fs, n)
    requires a.fixed.None? ==> forall j :: j < n && Names(fs, j, a.id) ==> fs[j].fixed.None?
    ensures Chosen(Merged(a, b), fs, n + 1)
  {
    var m := Merged(a, b);
    var k :| LastDeepens(a, fs, n, k);
    assert LastDeepens(m, fs, n + 1, k) by {
      hide Depth, Deepens, Names;
    }
    hide LastDeepens, Depth;
    if a.fixed.Some? {
      FixStays(a, m, fs, n);
    } else if b.fixed.Some? {
      hide ChosenFix;
      FirstNamed(m, fs, n);
    }
  }

  lemma FirstNamed(m: Advisory, fs: seq<Finding>, n: nat)
    requires n < |fs| && Names(fs, n, m.id) && !Deepens(fs, n, m.id) && fs[n].fixed == m.fixed
    requires forall j :: j < n && Names(fs, j, m.id) ==> fs[j].fixed.None?
    ensures ChosenFix(m, fs, n + 1)
  {
    hide Depth, WellFormed;
    assert FirstFix(m, fs, n + 1, n);
  }

  // A fix that is kept when the next finding deepens nothing, or names none.
  lemma FixStays(a: Advisory, m: Advisory, fs: seq<Finding>, n: nat)
    requires n < |fs| && a.id == m.id && a.fixed == m.fixed && a.fixed.Some? && Chosen(a, fs, n)
    requires Deepens(fs, n, a.id) ==> fs[n].fixed.None?
    ensures ChosenFix(m, fs, n + 1)
  {
    hide Depth, Deepens, Names;
    if k :| LastNamedFix(a, fs, n, k) {
      assert LastNamedFix(m, fs, n + 1, k);
    } else {
      var k :| FirstFix(a, fs, n, k);
      assert FirstFix(m, fs, n + 1, k);
    }
  }

  lemma ChosenUnmoved(a: Advisory, fs: seq<Finding>, n: nat)
    requires n < |fs| && !Names(fs, n, a.id) && Chosen(a, fs, n)
    ensures Chosen(a, fs, n + 1)
  {
    assert !Deepens(fs, n, a.id);
    hide Depth, Names, Deepens;
    var k :| LastDeepens(a, fs, n, k);
    assert LastDeepens(a, fs, n + 1, k);
    if a.fixed.Some? {
      FixStays(a, a, fs, n);
    }
  }

  /** Which finding an advisory is kept from: the first that is deepest; and which fix: that of the last
      finding that deepened it and names one, else the first that is named. */
  lemma {:induction false} KeptIsChosen(fs: seq<Finding>, id: Id, n: nat)
    requires n <= |fs| && Kept(fs, id, n).Some?
    ensures Chosen(Kept(fs, id, n).value, fs, n)
  {
    hide Depth, Summarises, Merged, Chosen, Deepens;
    var before := Kept(fs, id, n - 1);
    KeptSummarises(fs, id, n - 1);
    if before.Some? {
      KeptIsChosen(fs, id, n - 1);
    }
    if Names(fs, n - 1, id) {
      var b := AdvisoryOf(fs[n - 1]).value;
      if before.None? {
        ChosenFirst(b, fs, n - 1);
        return;
      }
      DeepensNext(before.value, b, fs, n - 1);
      if b.level > before.value.level {
        ChosenDeeper(before.value, b, fs, n - 1);
      } else {
        ChosenStill(before.value, b, fs, n - 1);
      }
    } else {
      ChosenUnmoved(before.value, fs, n - 1);
    }
  }

  // The same findings, each as often, in another order: a one-to-one renumbering.
  ghost predicate Reordered(fs: seq<Finding>, gs: seq<Finding>) {
    multiset(fs) == multiset(gs)
  }

  lemma FoundAgain(fs: seq<Finding>, gs: seq<Finding>, k: nat) returns (j: nat)
    requires Reordered(fs, gs) && k < |fs|
    ensures j < |gs| && gs[j] == fs[k]
  {
    assert fs[k] in multiset(fs);
    j :| j < |gs| && gs[j] == fs[k];
  }

  lemma AtLeastAsDeep(fs: seq<Finding>, gs: seq<Finding>, id: Id)
    requires Reordered(fs, gs) && Kept(fs, id, |fs|).Some?
    ensures Kept(gs, id, |gs|).Some?
    ensures Kept(fs, id, |fs|).value.level <= Kept(gs, id, |gs|).value.level
    ensures Kept(fs, id, |fs|).value.fixed.Some? ==> Kept(gs, id, |gs|).value.fixed.Some?
  {
    KeptSummarises(fs, id, |fs|);
    KeptSummarises(gs, id, |gs|);
    hide Depth, Kept, Reordered;
    var a := Kept(fs, id, |fs|).value;
    var k :| k < |fs| && Names(fs, k, a.id) && Depth(fs[k].trace) == a.level;
    var j := FoundAgain(fs, gs, k);
    assert Names(gs, j, id);
    if a.fixed.Some? {
      var k' :| k' < |fs| && Names(fs, k', a.id) && fs[k'].fixed.Some?;
      var j' := FoundAgain(fs, gs, k');
      assert Names(gs, j', id) && gs[j'].fixed.Some?;
    }
  }

  /** The order the scanner emits findings in changes neither which ids are reported, nor how deep, nor
      whether there is a fix. */
  lemma AnyFindingOrder(fs: seq<Finding>, gs: seq<Finding>, id: Id)
    requires Reordered(fs, gs)
    ensures Kept(fs, id, |fs|).Some? <==> Kept(gs, id, |gs|).Some?
    ensures Kept(fs, id, |fs|).Some? ==>
              && Kept(fs, id, |fs|).value.level == Kept(gs, id, |gs|).value.level
              && (Kept(fs, id, |fs|).value.fixed.Some? <==> Kept(gs, id, |gs|).value.fixed.Some?)
  {
    hide Kept;
    if Kept(fs, id, |fs|).Some? {
      AtLeastAsDeep(fs, gs, id);
    }
    if Kept(gs, id, |gs|).Some? {
      AtLeastAsDeep(gs, fs, id);
    }
  }

  // ---- the whole stream ---------------------------------------------------------------------------------------

  // What one message does wrong, on its own.
  function Fault(m: Message): Option<Error> {
    match m
    case Garbled => Some(Unparsable)
    case FindingMessage(f) => (match AdvisoryOf(f) case Err(e) => Some(e) case Ok(_) => None)
    case ConfigMessage(_) => None
    case OtherMessage => None
  }

  // The first fault among the first n messages.
  function FirstFault(ms: seq<Message>, n: nat): Option<Error>
    requires n <= |ms|
  {
    if n == 0 then None else if FirstFault(ms, n - 1).Some? then FirstFault(ms, n - 1) else Fault(ms[n - 1])
  }

  function LastConfig(ms: seq<Message>, n: nat): Option<Config>
    requires n <= |ms|
  {
    if n == 0 then None
    else if ms[n - 1].ConfigMessage? then Some(ms[n - 1].config) else LastConfig(ms, n - 1)
  }

  function Findings(ms: seq<Message>, n: nat): seq<Finding>
    requires n <= |ms|
  {
    if n == 0 then []
    else Findings(ms, n - 1) + if ms[n - 1].FindingMessage? then [ms[n - 1].finding] else []
  }

  function ConfigFault(c: Option<Config>, wanted: Wanted): Option<Error> {
    if c.None? then Some(NoConfig)
    else if c.value.scanner != wanted.scanner then Some(WrongScanner)
    else if c.value.level != wanted.level then Some(WrongLevel)
    else if c.value.mode != wanted.mode then Some(WrongMode)
    else None
  }

  // A report can be read off the stream, or the first reason why not.
  function Refusal(ms: seq<Message>, wanted: Wanted): Option<Error> {
    if FirstFault(ms, |ms|).Some? then FirstFault(ms, |ms|) else ConfigFault(LastConfig(ms, |ms|), wanted)
  }

  // What a message is refused for.
  ghost predicate RefusedFor(m: Message, e: Error) {
    match e
    case Unparsable => m.Garbled?
    case UnknownId => m.FindingMessage? && m.finding.osv.None?
    case EmptyTrace => m.FindingMessage? && m.finding.osv.Some? && m.finding.trace == []
    case _ => false
  }

  // Every message can be read: none is garbled, and every finding names an id and has a trace.
  ghost predicate AllRead(ms: seq<Message>, n: nat)
    requires n <= |ms|
  {
    forall i :: 0 <= i < n ==>
      !ms[i].Garbled? && (ms[i].FindingMessage? ==> ms[i].finding.osv.Some? && ms[i].finding.trace != [])
  }

  ghost predicate IsLastConfig(ms: seq<Message>, i: int) {
    && 0 <= i < |ms| && ms[i].ConfigMessage?
    && forall j :: i < j < |ms| ==> !ms[j].ConfigMessage?
  }

  // A stream a report can be read from: the last word on the configuration is the wanted one.
  ghost predicate Readable(ms: seq<Message>, wanted: Wanted) {
    && AllRead(ms, |ms|)
    && exists i :: IsLastConfig(ms, i) && ms[i].config == Config(wanted.scanner, wanted.level, wanted.mode)
  }

  // The last config is none, or not the wanted one: what that is refused for.
  ghost predicate Misconfigured(ms: seq<Message>, wanted: Wanted, e: Error) {
    || (e == NoConfig && forall i :: 0 <= i < |ms| ==> !ms[i].ConfigMessage?)
    || (exists i :: IsLastConfig(ms, i) &&
          var c := ms[i].config;
          || (e == WrongScanner && c.scanner != wanted.scanner)
          || (e == WrongLevel && c.scanner == wanted.scanner && c.level != wanted.level)
          || (e == WrongMode && c.scanner == wanted.scanner && c.level == wanted.level && c.mode != wanted.mode))
  }

  // The first n messages can be read, and the next is refused for this.
  ghost predicate StopsAt(ms: seq<Message>, n: int, e: Error) {
    0 <= n < |ms| && AllRead(ms, n) && RefusedFor(ms[n], e)
  }

  lemma {:induction false} FirstStop(ms: seq<Message>, n: nat)
    requires n <= |ms|
    ensures FirstFault(ms, n).None? <==> AllRead(ms, n)
    ensures FirstFault(ms, n).Some? ==> exists i :: i < n && StopsAt(ms, i, FirstFault(ms, n).value)
  {
    if n > 0 {
      FirstStop(ms, n - 1);
      if FirstFault(ms, n - 1).None? && FirstFault(ms, n).Some? {
        assert StopsAt(ms, n - 1, FirstFault(ms, n).value);
      }
    }
  }

  lemma OneStop(ms: seq<Message>, i: int, e: Error, j: int, f: Error)
    requires StopsAt(ms, i, e) && StopsAt(ms, j, f)
    ensures e == f
  {
    assert i == j;
  }

  lemma {:induction false} LastConfigIs(ms: seq<Message>, n: nat)
    requires n <= |ms| && forall j :: n <= j < |ms| ==> !ms[j].ConfigMessage?
    ensures if LastConfig(ms, n).None? then forall j :: 0 <= j < |ms| ==> !ms[j].ConfigMessage?
            else exists i :: IsLastConfig(ms, i) && ms[i].config == LastConfig(ms, n).value
  {
    if n > 0 {
      if ms[n - 1].ConfigMessage? {
        assert IsLastConfig(ms, n - 1);
      } else {
        LastConfigIs(ms, n - 1);
      }
    }
  }

  lemma OneLastConfig(ms: seq<Message>, i: int, j: int)
    requires IsLastConfig(ms, i) && IsLastConfig(ms, j)
    ensures i == j
  {
  }

  /** When a stream is refused, and what for: the first message that cannot be read decides; else the last
      word on the configuration, when there is none or it is not the wanted one. */
  lemma RefusedExactly(ms: seq<Message>, wanted: Wanted)
    ensures Refusal(ms, wanted).None? <==> Readable(ms, wanted)
    ensures forall e :: Refusal(ms, wanted) == Some(e) <==>
              (exists i :: StopsAt(ms, i, e)) || (AllRead(ms, |ms|) && Misconfigured(ms, wanted, e))
  {
    FirstStop(ms, |ms|);
    LastConfigIs(ms, |ms|);
    hide FirstFault, LastConfig, RefusedFor;
    if FirstFault(ms, |ms|).Some? {
      StoppedFor(ms, wanted);
    } else {
      ConfiguredFor(ms, wanted);
    }
  }

  lemma StoppedFor(ms: seq<Message>, wanted: Wanted)
    requires FirstFault(ms, |ms|).Some? && !AllRead(ms, |ms|)
    requires exists i :: StopsAt(ms, i, FirstFault(ms, |ms|).value)
    ensures forall e :: Refusal(ms, wanted) == Some(e) <==> exists i :: StopsAt(ms, i, e)
  {
    var i :| StopsAt(ms, i, FirstFault(ms, |ms|).value);
    hide FirstFault, LastConfig, StopsAt;
    forall e, j | StopsAt(ms, j, e) ensures e == FirstFault(ms, |ms|).value {
      OneStop(ms, i, FirstFault(ms, |ms|).value, j, e);
    }
  }

  lemma ConfiguredFor(ms: seq<Message>, wanted: Wanted)
    requires FirstFault(ms, |ms|).None? && AllRead(ms, |ms|)
    requires if LastConfig(ms, |ms|).None? then forall j :: 0 <= j < |ms| ==> !ms[j].ConfigMessage?
             else exists i :: IsLastConfig(ms, i) && ms[i].config == LastConfig(ms, |ms|).value
    ensures Refusal(ms, wanted).None? <==> Readable(ms, wanted)
    ensures forall e :: Refusal(ms, wanted) == Some(e) <==> Misconfigured(ms, wanted, e)
    ensures forall i, e :: !StopsAt(ms, i, e)
  {
    hide FirstFault, LastConfig;
    if LastConfig(ms, |ms|).Some? {
      var i :| IsLastConfig(ms, i) && ms[i].config == LastConfig(ms, |ms|).value;
      forall j | IsLastConfig(ms, j) ensures j == i {
        OneLastConfig(ms, i, j);
      }
    }
  }

  // The advisories of a list of findings, by id.
  ghost predicate IsReport(advisories: seq<Advisory>, fs: seq<Finding>) {
    && (forall i, j :: 0 <= i < j < |advisories| ==> advisories[i].id < advisories[j].id)
    && (forall i :: 0 <= i < |advisories| ==> Kept(fs, advisories[i].id, |fs|) == Some(advisories[i]))
    && (forall id :: Kept(fs, id, |fs|).Some? ==> exists i :: 0 <= i < |advisories| && advisories[i].id == id)
  }

  // Ids in ascending order.
  function InsertId(x: Id, ids: seq<Id>): seq<Id> {
    if ids == [] then [x] else if x <= ids[0] then [x] + ids else [ids[0]] + InsertId(x, ids[1..])
  }

  function SortIds(ids: seq<Id>): seq<Id> {
    if ids == [] then [] else InsertId(ids[0], SortIds(ids[1..]))
  }

  ghost predicate Ascending(ids: seq<Id>) {
    forall i, j :: 0 <= i < j < |ids| ==> ids[i] < ids[j]
  }

  lemma {:induction false} InsertAscends(x: Id, ids: seq<Id>)
    requires Ascending(ids) && x !in ids
    ensures Ascending(InsertId(x, ids)) && forall y :: y in InsertId(x, ids) <==> y in ids || y == x
  {
    if ids != [] {
      assert ids == [ids[0]] + ids[1..];
      if x > ids[0] {
        InsertAscends(x, ids[1..]);
        var rest := InsertId(x, ids[1..]);
        forall i | 0 <= i < |rest| ensures ids[0] < rest[i] {
          assert rest[i] in rest;
        }
      }
    }
  }

  lemma {:induction false} SortAscends(ids: seq<Id>)
    requires NoRepeats(ids)
    ensures Ascending(SortIds(ids)) && forall y :: y in SortIds(ids) <==> y in ids
  {
    if ids != [] {
      assert ids == [ids[0]] + ids[1..];
      assert forall i :: 0 <= i < |ids[1..]| ==> ids[1..][i] == ids[i + 1];
      SortAscends(ids[1..]);
      InsertAscends(ids[0], SortIds(ids[1..]));
    }
  }

  // The maps while the stream is read.
  ghost predicate Folding(deepest: map<Id, Advisory>, order: seq<Id>, fs: seq<Finding>) {
    && NoRepeats(order) && (forall id :: id in deepest <==> id in order)
    && (forall id :: Kept(fs, id, |fs|) == if id in deepest then Some(deepest[id]) else None)
  }

  lemma {:induction false} KeptPrefix(fs: seq<Finding>, f: Finding, id: Id, n: nat)
    requires n <= |fs|
    ensures Kept(fs + [f], id, n) == Kept(fs, id, n)
  {
    hide AdvisoryOf;
    if n > 0 {
      KeptPrefix(fs, f, id, n - 1);
    }
  }

  lemma FoldOneMore(deepest: map<Id, Advisory>, order: seq<Id>, fs: seq<Finding>, f: Finding, a: Advisory)
    requires Folding(deepest, order, fs) && AdvisoryOf(f) == Ok(a)
    ensures var d := deepest[a.id := if a.id in deepest then Merged(deepest[a.id], a) else a];
            Folding(d, if a.id in deepest then order else order + [a.id], fs + [f])
  {
    hide AdvisoryOf, Merged;
    forall id
      ensures Kept(fs + [f], id, |fs| + 1)
           == if id == a.id then Some(if id in deepest then Merged(deepest[id], a) else a) else Kept(fs, id, |fs|)
    {
      KeptPrefix(fs, f, id, |fs|);
    }
  }

  method ParseReport(ms: seq<Message>, wanted: Wanted) returns (r: Result<seq<Advisory>>)
    ensures r.Ok? <==> Readable(ms, wanted)
    ensures r.Err? ==>
              (exists i :: StopsAt(ms, i, r.error)) || (AllRead(ms, |ms|) && Misconfigured(ms, wanted, r.error))
    ensures r.Ok? ==> IsReport(r.value, Findings(ms, |ms|))
  {
    var cfg: Option<Config> := None;
    var deepest: map<Id, Advisory> := map[];
    var order: seq<Id> := [];
    hide AdvisoryOf, Merged, Folding, Kept, Readable, AllRead, Misconfigured, StopsAt;
    RefusedExactly(ms, wanted);
    assert Folding(deepest, order, []) by {
      NothingFolded();
    }
    for i := 0 to |ms|
      invariant FirstFault(ms, i) == None && cfg == LastConfig(ms, i)
      invariant Folding(deepest, order, Findings(ms, i))
    {
      assert Findings(ms, i) + [] == Findings(ms, i);
      match ms[i]
      case Garbled =>
        StaysFaulty(ms, i + 1, |ms|);
        return Err(Unparsable);
      case ConfigMessage(c) =>
        cfg := Some(c);
      case OtherMessage =>
      case FindingMessage(f) =>
        var found := ReadFinding(f);
        if found.Err? {
          StaysFaulty(ms, i + 1, |ms|);
          return Err(found.error);
        }
        var a := found.value;
        FoldOneMore(deepest, order, Findings(ms, i), f, a);
        if a.id !in deepest {
          order := order + [a.id];
          deepest := deepest[a.id := a];
        } else {
          deepest := deepest[a.id := Merged(deepest[a.id], a)];
        }
    }
    var fault := ConfigFault(cfg, wanted);
    if fault.Some? {
      return Err(fault.value);
    }
    var advisories := List(deepest, order, Findings(ms, |ms|));
    return Ok(advisories);
  }

  lemma NothingFolded()
    ensures Folding(map[], [], [])
  {
  }

  lemma {:induction false} StaysFaulty(ms: seq<Message>, n: nat, m: nat)
    requires n <= m <= |ms| && FirstFault(ms, n).Some?
    ensures FirstFault(ms, m) == FirstFault(ms, n)
  {
    if n < m {
      StaysFaulty(ms, n, m - 1);
    }
  }

  // The advisories in the order of their ids.
  method List(deepest: map<Id, Advisory>, order: seq<Id>, ghost fs: seq<Finding>) returns (advisories: seq<Advisory>)
    requires Folding(deepest, order, fs)
    ensures IsReport(advisories, fs)
  {
    hide Kept;
    SortAscends(order);
    KeptIds(deepest, order, fs);
    var sorted := SortIds(order);
    advisories := [];
    for i := 0 to |sorted|
      invariant |advisories| == i
      invariant forall k :: 0 <= k < i ==>
                  Kept(fs, sorted[k], |fs|) == Some(advisories[k]) && advisories[k].id == sorted[k]
    {
      assert sorted[i] in sorted;
      advisories := advisories + [deepest[sorted[i]]];
    }
    forall id | Kept(fs, id, |fs|).Some? ensures exists i :: 0 <= i < |advisories| && advisories[i].id == id {
      assert id in sorted;
      var i :| 0 <= i < |sorted| && sorted[i] == id;
      assert advisories[i].id == id;
    }
  }

  lemma KeptIds(deepest: map<Id, Advisory>, order: seq<Id>, fs: seq<Finding>)
    requires Folding(deepest, order, fs)
    ensures forall id :: id in deepest ==> deepest[id].id == id
  {
    forall id | id in deepest ensures deepest[id].id == id {
      KeptSummarises(fs, id, |fs|);
    }
  }

  // ---- the verdict ----------------------------------------------------------------------------------------------

  ghost predicate Reported(reported: seq<Advisory>, id: Id) {
    exists a :: a in reported && a.id == id
  }

  // The three kinds of problem.
  ghost function Unrecorded(entries: seq<Id>): iset<Advisory> {
    iset a: Advisory | a.id !in entries
  }

  ghost function Fixable(entries: seq<Id>): iset<Advisory> {
    iset a: Advisory | a.id in entries && a.fixed.Some?
  }

  ghost function Stale(reported: seq<Advisory>): iset<Id> {
    iset e: Id | !Reported(reported, e)
  }

  // Those of the first n that are to be kept, in their order.
  ghost function Only<T>(s: seq<T>, kept: iset<T>, n: nat): seq<T>
    requires n <= |s|
  {
    if n == 0 then [] else Only(s, kept, n - 1) + if s[n - 1] in kept then [s[n - 1]] else []
  }

  // Each is kept as often as it is there.
  lemma {:induction false} OnlyCounts<T>(s: seq<T>, kept: iset<T>, n: nat, x: T)
    requires n <= |s|
    ensures multiset(Only(s, kept, n))[x] == if x in kept then multiset(s[..n])[x] else 0
  {
    if n > 0 {
      OnlyCounts(s, kept, n - 1, x);
      CountOneMore(s[..n - 1], s[n - 1], x);
      CountOneMore(Only(s, kept, n - 1), s[n - 1], x);
      assert s[..n] == s[..n - 1] + [s[n - 1]];
      assert Only(s, kept, n - 1) + [] == Only(s, kept, n - 1);
    }
  }

  lemma CountOneMore<T>(s: seq<T>, y: T, x: T)
    ensures multiset(s + [y])[x] == multiset(s)[x] + if y == x then 1 else 0
  {
  }

  /** What the gate finds wrong, in the order of the report and of the records: advisories with no record,
      recorded ones that have a fix, and records for nothing. */
  method Evaluate(reported: seq<Advisory>, entries: seq<Id>)
    returns (unrecorded: seq<Advisory>, fixable: seq<Advisory>, stale: seq<Id>)
    ensures unrecorded == Only(reported, Unrecorded(entries), |reported|)
    ensures fixable == Only(reported, Fixable(entries), |reported|)
    ensures stale == Only(entries, Stale(reported), |entries|)
  {
    var recorded := Recorded(entries);
    var isReported := IdsReported(reported);
    unrecorded, fixable, stale := [], [], [];
    for i := 0 to |reported|
      invariant unrecorded == Only(reported, Unrecorded(entries), i)
      invariant fixable == Only(reported, Fixable(entries), i)
    {
      var a := reported[i];
      if a.id !in recorded {
        unrecorded := unrecorded + [a];
      } else if a.fixed.Some? {
        fixable := fixable + [a];
      }
    }
    for i := 0 to |entries|
      invariant stale == Only(entries, Stale(reported), i)
    {
      if entries[i] !in isReported {
        stale := stale + [entries[i]];
      }
    }
  }

  method Recorded(entries: seq<Id>) returns (recorded: set<Id>)
    ensures forall e :: e in recorded <==> e in entries
  {
    recorded := {};
    for i := 0 to |entries|
      invariant forall e :: e in recorded <==> e in entries[..i]
    {
      recorded := recorded + {entries[i]};
    }
    assert entries[..|entries|] == entries;
  }

  method IdsReported(reported: seq<Advisory>) returns (isReported: set<Id>)
    ensures forall e :: e in isReported <==> Reported(reported, e)
  {
    isReported := {};
    for i := 0 to |reported|
      invariant forall e :: e in isReported <==> Reported(reported[..i], e)
    {
      assert reported[..i + 1] == reported[..i] + [reported[i]];
      isReported := isReported + {reported[i].id};
    }
    assert reported[..|reported|] == reported;
  }

  // Some finding of the stream is about this id.
  ghost predicate Found(fs: seq<Finding>, id: Id) {
    exists k :: Names(fs, k, id)
  }

  /** Green, over a readable stream: the ids found are the ids recorded, and no finding names a fix. */
  ghost predicate Green(fs: seq<Finding>, entries: seq<Id>) {
    && (forall id :: Found(fs, id) <==> id in entries)
    && (forall k :: 0 <= k < |fs| && WellFormed(fs[k]) ==> fs[k].fixed.None?)
  }

  ghost predicate Approved(reported: seq<Advisory>, entries: seq<Id>) {
    && (forall a :: a in reported ==> a.id in entries && a.fixed.None?)
    && (forall e :: e in entries ==> Reported(reported, e))
  }

  lemma ReportedIds(reported: seq<Advisory>, fs: seq<Finding>, id: Id)
    requires IsReport(reported, fs)
    ensures Found(fs, id) <==> Reported(reported, id)
  {
    KeptSummarises(fs, id, |fs|);
    hide Kept, Summarises;
    if Found(fs, id) {
      var i :| 0 <= i < |reported| && reported[i].id == id;
      assert reported[i] in reported;
    }
    if a :| a in reported && a.id == id {
      var i :| 0 <= i < |reported| && reported[i] == a;
      assert Kept(fs, id, |fs|).Some?;
    }
  }

  lemma ReportedFixes(reported: seq<Advisory>, fs: seq<Finding>, a: Advisory)
    requires IsReport(reported, fs) && a in reported
    ensures a.fixed.Some? <==> exists k :: Names(fs, k, a.id) && fs[k].fixed.Some?
  {
    var i :| 0 <= i < |reported| && reported[i] == a;
    KeptSummarises(fs, a.id, |fs|);
    hide Kept, Depth;
    assert Summarises(a, fs, |fs|);
  }

  /** The verdict on the report is the verdict on the stream. */
  lemma ApprovedIsGreen(reported: seq<Advisory>, fs: seq<Finding>, entries: seq<Id>)
    requires IsReport(reported, fs)
    ensures Approved(reported, entries) <==> Green(fs, entries)
  {
    hide IsReport;
    forall id ensures Found(fs, id) <==> Reported(reported, id) {
      ReportedIds(reported, fs, id);
    }
    forall a | a in reported ensures a.fixed.Some? <==> exists k :: Names(fs, k, a.id) && fs[k].fixed.Some? {
      ReportedFixes(reported, fs, a);
    }
    forall k | 0 <= k < |fs| && WellFormed(fs[k]) ensures Names(fs, k, fs[k].osv.value) && Found(fs, fs[k].osv.value) {
    }
  }

  // One invocation of the scanner: it does not run at all, or ends with a status and a stream.
  datatype Invocation = NotRun | Ran(exitCode: int, stream: seq<Message>)

  ghost predicate Finds(ms: seq<Message>, id: Id) {
    exists i :: 0 <= i < |ms| && ms[i].FindingMessage? && ms[i].finding.osv == Some(id)
  }

  // The ids the stream's findings name are those of the records, and none of them names a fix.
  ghost predicate NothingWrong(ms: seq<Message>, entries: seq<Id>) {
    && (forall id :: Finds(ms, id) <==> id in entries)
    && (forall i :: 0 <= i < |ms| && ms[i].FindingMessage? ==> ms[i].finding.fixed.None?)
  }

  lemma {:induction false} FindingsAre(ms: seq<Message>, n: nat, f: Finding)
    requires n <= |ms|
    ensures f in Findings(ms, n) <==> exists i :: 0 <= i < n && ms[i].FindingMessage? && ms[i].finding == f
  {
    if n > 0 {
      FindingsAre(ms, n - 1, f);
    }
  }

  lemma FoundIsFinds(ms: seq<Message>, id: Id)
    requires AllRead(ms, |ms|)
    ensures Found(Findings(ms, |ms|), id) <==> Finds(ms, id)
  {
    var fs := Findings(ms, |ms|);
    if Found(fs, id) {
      var k :| Names(fs, k, id);
      FindingsAre(ms, |ms|, fs[k]);
    }
    if Finds(ms, id) {
      var i :| 0 <= i < |ms| && ms[i].FindingMessage? && ms[i].finding.osv == Some(id);
      FindingsAre(ms, |ms|, ms[i].finding);
      var k :| 0 <= k < |fs| && fs[k] == ms[i].finding;
      assert Names(fs, k, id);
    }
  }

  lemma FixesAre(ms: seq<Message>)
    requires AllRead(ms, |ms|)
    ensures var fs := Findings(ms, |ms|);
            (forall k :: 0 <= k < |fs| && WellFormed(fs[k]) ==> fs[k].fixed.None?)
            <==> forall i :: 0 <= i < |ms| && ms[i].FindingMessage? ==> ms[i].finding.fixed.None?
  {
    var fs := Findings(ms, |ms|);
    hide Findings;
    if i :| 0 <= i < |ms| && ms[i].FindingMessage? && ms[i].finding.fixed.Some? {
      FindingsAre(ms, |ms|, ms[i].finding);
      var k :| 0 <= k < |fs| && fs[k] == ms[i].finding;
    }
    if k :| 0 <= k < |fs| && WellFormed(fs[k]) && fs[k].fixed.Some? {
      FindingsAre(ms, |ms|, fs[k]);
    }
  }

  lemma GreenIsNothingWrong(ms: seq<Message>, entries: seq<Id>)
    requires AllRead(ms, |ms|)
    ensures Green(Findings(ms, |ms|), entries) <==> NothingWrong(ms, entries)
  {
    hide Findings, Found, Finds, AllRead;
    FixesAre(ms);
    forall id ensures Found(Findings(ms, |ms|), id) <==> Finds(ms, id) {
      FoundIsFinds(ms, id);
    }
  }

  /** The gate is green if and only if the records are readable, the scanner ran and its exit status is zero,
      every message it printed can be read, the last word on its configuration is the wanted one, the ids its
      findings name are the ids recorded, and no finding names a fix. */
  method Check(entries: Option<seq<Id>>, run: Invocation, wanted: Wanted) returns (green: bool)
    ensures green <==>
              && entries.Some? && run.Ran? && run.exitCode == 0
              && Readable(run.stream, wanted) && NothingWrong(run.stream, entries.value)
  {
    if entries.None? || run.NotRun? || run.exitCode != 0 {
      return false;
    }
    var ms := run.stream;
    var report := ParseReport(ms, wanted);
    if report.Err? {
      return false;
    }
    hide IsReport, Green, AllRead;
    GreenIsNothingWrong(ms, entries.value);
    ApprovedIsGreen(report.value, Findings(ms, |ms|), entries.value);
    var unrecorded, fixable, stale := Evaluate(report.value, entries.value);
    green := unrecorded == [] && fixable == [] && stale == [];
    NoProblems(report.value, entries.value);
  }

  lemma NoProblems(reported: seq<Advisory>, entries: seq<Id>)
    ensures Only(reported, Unrecorded(entries), |reported|) == [] == Only(reported, Fixable(entries), |reported|)
            && Only(entries, Stale(reported), |entries|) == []
            <==> Approved(reported, entries)
  {
    OnlyNone(reported, Unrecorded(entries), |reported|);
    OnlyNone(reported, Fixable(entries), |reported|);
    OnlyNone(entries, Stale(reported), |entries|);
    assert reported[..|reported|] == reported && entries[..|entries|] == entries;
    assert forall e :: e in Stale(reported) <==> !Reported(reported, e);
  }

  // Nothing is kept exactly when nothing is to be.
  lemma {:induction false} OnlyNone<T(!new)>(s: seq<T>, kept: iset<T>, n: nat)
    requires n <= |s|
    ensures Only(s, kept, n) == [] <==> forall x :: x in s[..n] ==> x !in kept
  {
    if n > 0 {
      OnlyNone(s, kept, n - 1);
      assert s[..n] == s[..n - 1] + [s[n - 1]];
    }
  }
}
