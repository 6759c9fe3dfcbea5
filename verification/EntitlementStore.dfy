/**
 The entitlement file on disk: written to a temporary file first and renamed into place.

 Any number of savers run at once, and each may stop for good between any two file-system
 operations.  The name of a saver's temporary file is derived from the clock, so whether
 two savers share one is an assumption, and `AtomicIffNamesDistinct` shows that it is
 exactly the assumption that atomicity needs.
 */
module EntitlementStore {
  import opened Prelude
  import E = Entitlement

  // Truncated: the temporary file was opened for writing but not yet filled.
  datatype Content = Truncated | Whole(token: E.Payload)
  datatype Phase = Idle | Opened | Written | Renamed | Failed

  // A saver is a number; its token and temporary name are fixed by the two functions.
  datatype Plan = Plan(token: nat -> E.Payload, temp: nat -> string)

  /**
   Directory entries name inodes.  handles[s] is the inode that saver s opened; renamed are
   the savers whose rename succeeded, in order.
   */
  datatype Disk = Disk(
    inodes: seq<Content>,
    file: Option<nat>,
    temps: map<string, nat>,
    handles: map<nat, nat>,
    phases: map<nat, Phase>,
    renamed: seq<nat>)

  datatype Move = Open(saver: nat) | Fill(saver: nat) | Replace(saver: nat)

  const EMPTY := Disk([], None, map[], map[], map[], [])

  function PhaseOf(d: Disk, saver: nat): Phase {
    if saver in d.phases then d.phases[saver] else Idle
  }

  /** Every inode that is named or held open exists. */
  predicate WellFormed(d: Disk) {
    && (d.file.Some? ==> d.file.value < |d.inodes|)
    && (forall n :: n in d.temps ==> d.temps[n] < |d.inodes|)
    && (forall h :: h in d.handles ==> d.handles[h] < |d.inodes|)
    && (forall s :: s in d.phases && d.phases[s] == Opened ==> s in d.handles)
  }

  /** A saver that stops early simply makes no further move. */
  predicate Enabled(d: Disk, m: Move) {
    match m
    case Open(s) => PhaseOf(d, s) == Idle
    case Fill(s) => PhaseOf(d, s) == Opened
    case Replace(s) => PhaseOf(d, s) == Written
  }

  function Apply(plan: Plan, d: Disk, m: Move): (d1: Disk)
    requires WellFormed(d) && Enabled(d, m)
    ensures WellFormed(d1)
  {
    match m
    case Open(s) =>
      var name := plan.temp(s);
      var inode := if name in d.temps then d.temps[name] else |d.inodes|;
      d.(inodes := if name in d.temps then d.inodes[inode := Truncated] else d.inodes + [Truncated],
         temps := d.temps[name := inode], handles := d.handles[s := inode], phases := d.phases[s := Opened])
    case Fill(s) =>
      d.(inodes := d.inodes[d.handles[s] := Whole(plan.token(s))], phases := d.phases[s := Written])
    case Replace(s) =>
      var name := plan.temp(s);
      if name in d.temps then
        d.(file := Some(d.temps[name]), temps := d.temps - {name},
           phases := d.phases[s := Renamed], renamed := d.renamed + [s])
      else
        d.(phases := d.phases[s := Failed])
  }

  function Visible(d: Disk): Option<Content>
    requires WellFormed(d)
  {
    if d.file.None? then None else Some(d.inodes[d.file.value])
  }

  predicate Legal(plan: Plan, d: Disk, moves: seq<Move>)
    requires WellFormed(d)
    decreases |moves|
  {
    moves == [] || (Enabled(d, moves[0]) && Legal(plan, Apply(plan, d, moves[0]), moves[1..]))
  }

  function After(plan: Plan, d: Disk, moves: seq<Move>): (d1: Disk)
    requires WellFormed(d) && Legal(plan, d, moves)
    ensures WellFormed(d1)
    decreases |moves|
  {
    if moves == [] then d else After(plan, Apply(plan, d, moves[0]), moves[1..])
  }

  /** A reader sees the whole token of the last saver to rename, or no file. */
  predicate Atomic(plan: Plan, d: Disk)
    requires WellFormed(d)
  {
    Visible(d) == if d.renamed == [] then None else Some(Whole(plan.token(d.renamed[|d.renamed| - 1])))
  }

  ghost predicate Inv(plan: Plan, d: Disk) {
    && WellFormed(d) && Atomic(plan, d)
    && (forall n :: n in d.temps ==> d.file != Some(d.temps[n]))
    && (forall m, n :: m in d.temps && n in d.temps && m != n ==> d.temps[m] != d.temps[n])
    && (forall s: nat :: OwnsTemp(plan, d, s))
  }

  /** A saver at work has its temporary file to itself. */
  predicate OwnsTemp(plan: Plan, d: Disk, s: nat)
    requires WellFormed(d)
  {
    var name := plan.temp(s);
    match PhaseOf(d, s)
    case Opened => name in d.temps && d.handles[s] == d.temps[name]
    case Written => name in d.temps && d.inodes[d.temps[name]] == Whole(plan.token(s))
    case _ => true
  }

  ghost predicate DistinctNames(plan: Plan) {
    forall s: nat, t: nat :: s != t ==> plan.temp(s) != plan.temp(t)
  }

  lemma OpenKeepsInv(plan: Plan, d: Disk, s: nat)
    requires DistinctNames(plan) && Inv(plan, d) && Enabled(d, Open(s))
    ensures Inv(plan, Apply(plan, d, Open(s))) && Visible(Apply(plan, d, Open(s))) == Visible(d)
  {
    var r := Apply(plan, d, Open(s));
    assert OwnsTemp(plan, d, s);
    forall t: nat ensures OwnsTemp(plan, r, t) {
      assert OwnsTemp(plan, d, t);
      assert t != s ==> plan.temp(t) != plan.temp(s);
    }
  }

  lemma FillKeepsInv(plan: Plan, d: Disk, s: nat)
    requires DistinctNames(plan) && Inv(plan, d) && Enabled(d, Fill(s))
    ensures Inv(plan, Apply(plan, d, Fill(s))) && Visible(Apply(plan, d, Fill(s))) == Visible(d)
  {
    var r := Apply(plan, d, Fill(s));
    assert OwnsTemp(plan, d, s);
    forall t: nat ensures OwnsTemp(plan, r, t) {
      assert OwnsTemp(plan, d, t);
      assert t != s ==> plan.temp(t) != plan.temp(s);
    }
  }

  lemma ReplaceKeepsInv(plan: Plan, d: Disk, s: nat)
    requires DistinctNames(plan) && Inv(plan, d) && Enabled(d, Replace(s))
    ensures Inv(plan, Apply(plan, d, Replace(s)))
  {
    var r := Apply(plan, d, Replace(s));
    assert OwnsTemp(plan, d, s);
    forall t: nat ensures OwnsTemp(plan, r, t) {
      assert OwnsTemp(plan, d, t);
      assert t != s ==> plan.temp(t) != plan.temp(s);
    }
  }

  lemma StepKeepsInv(plan: Plan, d: Disk, m: Move)
    requires DistinctNames(plan) && Inv(plan, d) && Enabled(d, m)
    ensures Inv(plan, Apply(plan, d, m))
    ensures !m.Replace? ==> Visible(Apply(plan, d, m)) == Visible(d)
  {
    match m
    case Open(s) => OpenKeepsInv(plan, d, s);
    case Fill(s) => FillKeepsInv(plan, d, s);
    case Replace(s) => ReplaceKeepsInv(plan, d, s);
  }

  lemma {:induction false} RunKeepsInv(plan: Plan, d: Disk, moves: seq<Move>)
    requires DistinctNames(plan) && Inv(plan, d) && Legal(plan, d, moves)
    ensures Inv(plan, After(plan, d, moves))
    decreases |moves|
  {
    if moves != [] {
      StepKeepsInv(plan, d, moves[0]);
      RunKeepsInv(plan, Apply(plan, d, moves[0]), moves[1..]);
    }
  }

  lemma RunFrom(plan: Plan, d: Disk, m: Move, rest: seq<Move>)
    requires WellFormed(d) && Enabled(d, m) && Legal(plan, Apply(plan, d, m), rest)
    ensures Legal(plan, d, [m] + rest) && After(plan, d, [m] + rest) == After(plan, Apply(plan, d, m), rest)
  {
    assert ([m] + rest)[1..] == rest;
  }

  /** Two savers with one temporary name: the first renames what the second has just truncated. */
  lemma SharedNameRun(plan: Plan, s: nat, t: nat) returns (moves: seq<Move>)
    requires s != t && plan.temp(s) == plan.temp(t)
    ensures Legal(plan, EMPTY, moves)
    ensures var d := After(plan, EMPTY, moves);
            Visible(d) == Some(Truncated) && d.renamed == [s] && d.handles.Keys == {s, t}
            && d.file == Some(d.handles[t]) && PhaseOf(d, t) == Opened
  {
    var d1 := Apply(plan, EMPTY, Open(s));
    var d2 := Apply(plan, d1, Fill(s));
    var d3 := Apply(plan, d2, Open(t));
    assert [Replace(s)] + [] == [Replace(s)];
    RunFrom(plan, d3, Replace(s), []);
    RunFrom(plan, d2, Open(t), [Replace(s)]);
    RunFrom(plan, d1, Fill(s), [Open(t)] + [Replace(s)]);
    RunFrom(plan, EMPTY, Open(s), [Fill(s)] + ([Open(t)] + [Replace(s)]));
    moves := [Open(s)] + ([Fill(s)] + ([Open(t)] + [Replace(s)]));
  }

  lemma SharedNameTears(plan: Plan, s: nat, t: nat) returns (moves: seq<Move>)
    requires s != t && plan.temp(s) == plan.temp(t)
    ensures Legal(plan, EMPTY, moves) && !Atomic(plan, After(plan, EMPTY, moves))
  {
    moves := SharedNameRun(plan, s, t);
  }

  /** Saves are atomic in every interleaving, with savers stopping anywhere, exactly when names are distinct. */
  lemma AtomicIffNamesDistinct(plan: Plan)
    ensures DistinctNames(plan) <==>
              forall moves :: Legal(plan, EMPTY, moves) ==> Atomic(plan, After(plan, EMPTY, moves))
  {
    if DistinctNames(plan) {
      forall moves | Legal(plan, EMPTY, moves) ensures Atomic(plan, After(plan, EMPTY, moves)) {
        RunKeepsInv(plan, EMPTY, moves);
      }
    } else {
      var s: nat, t: nat :| s != t && plan.temp(s) == plan.temp(t);
      var moves := SharedNameTears(plan, s, t);
    }
  }

  /** What loading reports. */
  function Load(v: E.Verifier, file: Option<Content>, now: int): E.Outcome {
    match file
    case None => E.Reported(E.Unlicensed)
    case Some(Truncated) => E.Reported(E.Tampered)
    case Some(Whole(token)) => E.Verify(v, token, now)
  }

  /** The savers that come to their rename, in order. */
  function Saved(moves: seq<Move>): seq<nat> {
    if moves == [] then []
    else (if moves[0].Replace? then [moves[0].saver] else []) + Saved(moves[1..])
  }

  lemma {:induction false} RunRenames(plan: Plan, d: Disk, moves: seq<Move>)
    requires DistinctNames(plan) && Inv(plan, d) && Legal(plan, d, moves)
    ensures After(plan, d, moves).renamed == d.renamed + Saved(moves)
    decreases |moves|
  {
    if moves == [] {
      assert d.renamed + [] == d.renamed;
    } else {
      StepRenames(plan, d, moves[0]);
      StepKeepsInv(plan, d, moves[0]);
      RunRenames(plan, Apply(plan, d, moves[0]), moves[1..]);
      Regroup(d.renamed, if moves[0].Replace? then [moves[0].saver] else [], Saved(moves[1..]));
    }
  }

  lemma Regroup(a: seq<nat>, b: seq<nat>, c: seq<nat>)
    ensures (a + b) + c == a + (b + c)
  {
  }

  lemma StepRenames(plan: Plan, d: Disk, m: Move)
    requires Inv(plan, d) && Enabled(d, m)
    ensures Apply(plan, d, m).renamed == d.renamed + if m.Replace? then [m.saver] else []
  {
    assert OwnsTemp(plan, d, m.saver);
  }

  /** After every run: unlicensed before the first rename, and then what verifying the last token renamed reports. */
  lemma LoadSeesLastSave(plan: Plan, moves: seq<Move>, v: E.Verifier, now: int)
    requires DistinctNames(plan) && Legal(plan, EMPTY, moves)
    ensures var saved := Saved(moves);
            Load(v, Visible(After(plan, EMPTY, moves)), now) ==
              if saved == [] then E.Reported(E.Unlicensed) else E.Verify(v, plan.token(saved[|saved| - 1]), now)
  {
    RunKeepsInv(plan, EMPTY, moves);
    RunRenames(plan, EMPTY, moves);
    assert [] + Saved(moves) == Saved(moves);
  }

  predicate NoRename(moves: seq<Move>) {
    forall m :: m in moves ==> !m.Replace?
  }

  lemma {:induction false} FileUntouched(plan: Plan, d: Disk, moves: seq<Move>)
    requires DistinctNames(plan) && Inv(plan, d) && Legal(plan, d, moves) && NoRename(moves)
    ensures Visible(After(plan, d, moves)) == Visible(d)
    decreases |moves|
  {
    if moves != [] {
      assert moves[0] in moves;
      StepKeepsInv(plan, d, moves[0]);
      FileUntouched(plan, Apply(plan, d, moves[0]), moves[1..]);
    }
  }

  /** Without a further rename, what a reader sees does not change. */
  ghost predicate FileStable(plan: Plan) {
    forall before, between :: Quiet(plan, before, between) ==>
      Visible(After(plan, After(plan, EMPTY, before), between)) == Visible(After(plan, EMPTY, before))
  }

  /** A run, and a continuation of it without a rename. */
  predicate Quiet(plan: Plan, before: seq<Move>, between: seq<Move>) {
    Legal(plan, EMPTY, before) && Legal(plan, After(plan, EMPTY, before), between) && NoRename(between)
  }

  /** Two savers with one temporary name: the second fills the file that the first has put in place. */
  lemma SharedNameRewrites(plan: Plan, s: nat, t: nat) returns (before: seq<Move>, between: seq<Move>)
    requires s != t && plan.temp(s) == plan.temp(t)
    ensures Quiet(plan, before, between)
    ensures var d := After(plan, EMPTY, before);
            Visible(d) == Some(Truncated) && Visible(After(plan, d, between)) == Some(Whole(plan.token(t)))
  {
    before := SharedNameRun(plan, s, t);
    between := [Fill(t)];
    assert [Fill(t)] + [] == [Fill(t)];
    RunFrom(plan, After(plan, EMPTY, before), Fill(t), []);
  }

  /** Only a rename changes what readers see, exactly when names are distinct. */
  lemma FileStableIffNamesDistinct(plan: Plan)
    ensures FileStable(plan) <==> DistinctNames(plan)
  {
    if DistinctNames(plan) {
      forall before, between | Quiet(plan, before, between)
        ensures Visible(After(plan, After(plan, EMPTY, before), between)) == Visible(After(plan, EMPTY, before))
      {
        RunKeepsInv(plan, EMPTY, before);
        FileUntouched(plan, After(plan, EMPTY, before), between);
      }
    } else {
      var s: nat, t: nat :| s != t && plan.temp(s) == plan.temp(t);
      var before, between := SharedNameRewrites(plan, s, t);
    }
  }

  /** A licensed status stays licensed and only ages; any other report stays as it is. */
  predicate OnlyAges(a: E.Outcome, b: E.Outcome) {
    && (a.Raised? || E.Age(a.status) == 3 <==> b.Raised? || E.Age(b.status) == 3)
    && (a.Raised? || E.Age(a.status) == 3 ==> a == b)
    && (a.Reported? && b.Reported? ==> E.Age(a.status) <= E.Age(b.status))
  }

  /** Without a further rename, loading reports a status that only ages, for every verifier. */
  ghost predicate StatusAges(plan: Plan) {
    forall before, between, v, early, late :: Quiet(plan, before, between) && early <= late ==>
      OnlyAges(Load(v, Visible(After(plan, EMPTY, before)), early),
               Load(v, Visible(After(plan, After(plan, EMPTY, before), between)), late))
  }

  /** A token with all required fields is not rejected as tampered by every verifier. */
  lemma CompleteIsNotAlwaysTampered(token: E.Payload) returns (v: E.Verifier)
    requires E.Complete(token)
    ensures E.Verify(v, token, 0) != E.Reported(E.Tampered)
  {
    var keyId := E.Field(token, "key_id");
    var keyring := if keyId.Str? then map[keyId.s := "key"] else map[];
    v := E.Verifier(None, keyring, (_, _, _) => true, _ => Some(0));
  }

  lemma DistinctNamesAge(plan: Plan)
    requires DistinctNames(plan)
    ensures StatusAges(plan)
  {
    FileStableIffNamesDistinct(plan);
    forall before, between, v, early, late | Quiet(plan, before, between) && early <= late
      ensures OnlyAges(Load(v, Visible(After(plan, EMPTY, before)), early),
                       Load(v, Visible(After(plan, After(plan, EMPTY, before), between)), late))
    {
      LoadAges(v, Visible(After(plan, EMPTY, before)), early, late);
    }
  }

  lemma SharedNameChangesStatus(plan: Plan, s: nat, t: nat)
    requires s != t && plan.temp(s) == plan.temp(t) && E.Complete(plan.token(t))
    ensures !StatusAges(plan)
  {
    var before, between := SharedNameRewrites(plan, s, t);
    var v := CompleteIsNotAlwaysTampered(plan.token(t));
    assert !OnlyAges(Load(v, Some(Truncated), 0), Load(v, Some(Whole(plan.token(t))), 0));
  }

  /**
   With distinct names the status only ages until the next rename.  For savers of tokens
   that have all required fields it does so in every run exactly when names are distinct.
   */
  lemma StatusBetweenSaves(plan: Plan)
    ensures DistinctNames(plan) ==> StatusAges(plan)
    ensures (forall s: nat :: E.Complete(plan.token(s))) ==> (StatusAges(plan) <==> DistinctNames(plan))
  {
    if DistinctNames(plan) {
      DistinctNamesAge(plan);
    } else if forall s: nat :: E.Complete(plan.token(s)) {
      var s: nat, t: nat :| s != t && plan.temp(s) == plan.temp(t);
      SharedNameChangesStatus(plan, s, t);
    }
  }

  lemma LoadAges(v: E.Verifier, file: Option<Content>, early: int, late: int)
    requires early <= late
    ensures OnlyAges(Load(v, file, early), Load(v, file, late))
  {
    if file.Some? && file.value.Whole? {
      E.VerdictsAge(v, file.value.token, early, late);
    }
  }
}
