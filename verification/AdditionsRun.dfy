/**
 A whole run that merges a template into a router: everything before the first
 import, the imports, and the last word on the revert.
 */
module AdditionsRun {
  import opened Wrappers
  import opened Router
  import opened Parts
  import opened Deploy
  import opened Revert

  /** Nothing on the trace changes the router, only the first exchange sweeps, and no revert is armed but the evidence's. */
  ghost predicate OnlyChecks(trace: seq<Event>, armed: Option<nat>) {
    && (forall i :: 0 <= i < |trace| ==> !IsRealImport(trace[i]))
    && NoSweeps(trace, 1)
    && (forall i :: 0 <= i < |trace| && trace[i].AddScheduler? && trace[i].ok ==> armed == Some(i))
  }

  ghost predicate NoSweeps(trace: seq<Event>, from: nat) {
    forall i :: from <= i < |trace| ==> !trace[i].SweepFiles?
  }

  /** No exchange from here on is a real import, a sweep, or the arming of a revert. */
  lemma ChecksGoOn(before: seq<Event>, after: seq<Event>, armed: Option<nat>)
    requires OnlyChecks(before, None) && before <= after && HarmlessFrom(after, |before|)
    requires forall i :: |before| <= i < |after| && after[i].AddScheduler? && after[i].ok ==> armed == Some(i)
    ensures OnlyChecks(after, armed)
  {
    forall i | 0 <= i < |before|
      ensures after[i] == before[i]
    {
    }
  }

  /** What is already on the trace stays there. */
  lemma EvidenceStays(hash: string -> string, a: Additions, trace: seq<Event>, more: seq<Event>, e: Evidence, armed: Option<nat>)
    requires trace <= more && Checked(hash, a, trace, e)
    ensures Checked(hash, a, more, e.(armed := armed)) && more[e.rendered] == trace[e.rendered]
  {
    assert forall i :: 0 <= i < |trace| ==> more[i] == trace[i];
    PartsStay(trace, more, trace[e.rendered].rendering.value.text, e, e.rechecked);
  }

  /** The pieces of evidence, put together. */
  lemma StageIsChecked(hash: string -> string, a: Additions, r: Rendering, again: Rendering, before: seq<Event>,
                       trace: seq<Event>, e: Evidence)
    requires before <= trace && e.identified < e.rendered < |before| == e.backedUp < e.rechecked == |trace| - 1
    requires before[e.identified].ReadIdentity? && before[e.identified].identity.Some?
    requires IsPlanned(before[e.identified].identity.value, a.planned)
    requires IsFirstRender(before, e.rendered) && before[e.rendered] == Render(Some(r)) && IsApproved(hash, r, a)
    requires trace[e.backedUp].TakeBackup? && trace[e.backedUp].backup.Some?
    requires PartsReady(trace, r.text, e, e.rechecked)
    requires trace[e.rechecked] == Render(Some(again))
    requires hash(again.text) == hash(r.text) && Keys(again.findings) == Keys(r.findings)
    ensures Checked(hash, a, trace, e)
  {
    assert trace[e.identified] == before[e.identified] && trace[e.rendered] == before[e.rendered];
  }

  /** Every part uploaded, and then every one parsed. */
  method SendAndParse(env: Env, parts: seq<string>)
    returns (code: string, failed: nat, files: seq<string>, ghost uploads: seq<nat>, ghost uploaded: nat,
             ghost dryRuns: seq<nat>)
    requires Fit(parts, MAX_PART)
    modifies env
    ensures code == "" || code == "upload" || code == "dry-run"
    ensures code == "upload" ==> old(env.trace) < env.trace && UploadRefused(env.trace[|env.trace| - 1])
    ensures code == "dry-run" ==> DryRunRefused(env.trace)
    ensures old(env.trace) <= env.trace && HarmlessFrom(env.trace, |old(env.trace)|)
    ensures forall i :: |old(env.trace)| <= i < |env.trace| ==> !env.trace[i].AddScheduler?
    ensures code == "" ==>
              && AllUploaded(env.trace, files, parts, uploads, |old(env.trace)|, uploaded) && uploaded <= |env.trace|
              && SetOnce(env.trace, files, uploads, |old(env.trace)|, uploaded)
              && NoSets(env.trace, uploaded, |env.trace|)
              && AllParsed(env.trace, files, dryRuns, uploaded, |env.trace|)
  {
    failed, uploaded, dryRuns := 0, 0, [];
    var sent;
    sent, files, uploads := UploadAll(env, parts);
    if !sent {
      return "upload", failed, files, uploads, uploaded, dryRuns;
    }
    ghost var withFiles := env.trace;
    uploaded := |env.trace|;
    failed, dryRuns := DryRunAll(env, files);
    if failed > 0 {
      return "dry-run", failed, files, uploads, uploaded, dryRuns;
    }
    UploadsStay(withFiles, env.trace, files, parts, uploads, |old(env.trace)|, uploaded);
    SetOnceStays(withFiles, env.trace, files, uploads, |old(env.trace)|, uploaded);
    code := "";
  }

  /** A restore point, and then the files on the router, parsed but not run. */
  method PutFiles(env: Env, r: Rendering, ghost identified: nat, ghost rendered: nat)
    returns (out: Outcome, files: seq<string>, ghost e: Evidence)
    requires IsFirstRender(env.trace, rendered) && env.trace[rendered] == Render(Some(r))
    modifies env
    ensures out.code != "" ==> FilesRefuse(env.trace, out.code)
    ensures old(env.trace) <= env.trace && HarmlessFrom(env.trace, |old(env.trace)|)
    ensures forall i :: |old(env.trace)| <= i < |env.trace| ==> !env.trace[i].AddScheduler?
    ensures out.state.PreflightFailed? && !out.reverted && out.holds.HoldsNone?
    ensures out.code == "" ==>
              && e.identified == identified && e.rendered == rendered && e.backedUp == |old(env.trace)| < |env.trace|
              && e.files == files && e.rechecked == |env.trace| && e.armed.None?
              && env.trace[e.backedUp] == TakeBackup(Some(out.backup))
              && PartsReady(env.trace, r.text, e, |env.trace|) && NoSets(env.trace, e.uploaded, |env.trace|)
  {
    out := Outcome(PreflightFailed, "", HoldsNone, 0, 0, false);
    files := [];
    e := Evidence(identified, rendered, |env.trace|, [], [], 0, [], |env.trace|, None);
    var backup: Option<int> := Answer();
    env.Exchange(TakeBackup(backup));
    if backup.None? {
      return out.(code := "no-restore-point"), files, e;
    }
    out := out.(backup := backup.value);
    var parts, _ := SplitParts(r.text, MAX_PART);
    PartsFit(r.text, MAX_PART);
    assert IsFirstRender(env.trace, rendered);
    if parts.None? {
      return out.(code := "too-large"), files, e;
    }
    var code, failed;
    ghost var uploads, uploaded, dryRuns;
    code, failed, files, uploads, uploaded, dryRuns := SendAndParse(env, parts.value);
    e := Evidence(identified, rendered, e.backedUp, files, uploads, uploaded, dryRuns, |env.trace|, None);
    out := out.(code := code, part := failed);
  }

  /** The files in place, and the text they came from still the same. */
  method Stage(env: Env, hash: string -> string, a: Additions, r: Rendering, ghost identified: nat, ghost rendered: nat)
    returns (out: Outcome, files: seq<string>, ghost e: Evidence)
    requires OnlyChecks(env.trace, None)
    requires identified < rendered && IsFirstRender(env.trace, rendered) && env.trace[rendered] == Render(Some(r))
    requires env.trace[identified].ReadIdentity? && env.trace[identified].identity.Some?
    requires IsPlanned(env.trace[identified].identity.value, a.planned) && IsApproved(hash, r, a)
    modifies env
    ensures out.code != "" ==> FilesRefuse(env.trace, out.code) || RecheckRefuses(hash, env.trace, out.code)
    ensures old(env.trace) <= env.trace && OnlyChecks(env.trace, None)
    ensures out.state.PreflightFailed? && !out.reverted && out.holds.HoldsNone?
    ensures out.code == "" ==>
              && e.rendered == rendered && e.files == files && e.armed.None? && Checked(hash, a, env.trace, e)
              && env.trace[rendered] == Render(Some(r)) && |env.trace| == e.rechecked + 1
              && env.trace[e.backedUp] == TakeBackup(Some(out.backup))
              && NoSets(env.trace, e.uploaded, |env.trace|)
  {
    out, files, e := PutFiles(env, r, identified, rendered);
    ghost var parsed := env.trace;
    ChecksGoOn(old(env.trace), parsed, None);
    if out.code != "" {
      return;
    }
    var again: Option<Rendering> := Answer();
    env.Exchange(Render(again));
    ChecksGoOn(parsed, env.trace, None);
    if again.None? || hash(again.value.text) != hash(r.text)
       || multiset(again.value.findings) != multiset(r.findings) {
      out := out.(code := "changed-during-deploy");
      assert IsFirstRender(env.trace, rendered) && IsOtherRendering(hash, Some(r), again);
      return;
    }
    PartsStay(parsed, env.trace, r.text, e, |parsed|);
    StageIsChecked(hash, a, r, again.value, old(env.trace), env.trace, e);
  }

  /** Everything checked and the revert armed on top of it. */
  lemma ArmedIsCleared(hash: string -> string, a: Additions, checked: seq<Event>, trace: seq<Event>, e: Evidence,
                       armed: nat, name: string, armedAt: int)
    requires checked <= trace && Checked(hash, a, checked, e) && NoSets(checked, e.uploaded, |checked|)
    requires IsLockClass(checked[e.rendered].rendering.value.findings)
    requires |checked| == e.rechecked + 1 && |trace| == armed + 2
    requires armed == |checked| + 3 && ArmedAt(trace, armed, name, armedAt) && NoSets(trace, |checked|, |trace|)
    ensures Cleared(hash, a, trace, e.(armed := Some(armed)))
  {
    EvidenceStays(hash, a, checked, trace, e, Some(armed));
    assert forall i :: 0 <= i < |checked| ==> trace[i] == checked[i];
  }

  /** The revert, if what would be imported could cut this program off. */
  method ArmFor(env: Env, hash: string -> string, a: Additions, r: Rendering, ghost e0: Evidence)
    returns (ok: bool, dm: Option<DeadMan>, ghost e: Evidence)
    requires OnlyChecks(env.trace, None) && Checked(hash, a, env.trace, e0) && e0.armed.None?
    requires env.trace[e0.rendered] == Render(Some(r)) && NoSets(env.trace, e0.uploaded, |env.trace|)
    requires |env.trace| == e0.rechecked + 1
    modifies env
    ensures OnlyChecks(env.trace, if ok then e.armed else None)
    ensures !ok ==> dm.None? && ArmRefuses(env.trace, "dead-man")
    ensures ok ==> old(env.trace) <= env.trace && e == e0.(armed := e.armed)
    ensures ok ==> Cleared(hash, a, env.trace, e) && (dm.Some? <==> e.armed.Some?)
    ensures dm.Some? ==>
              && fresh(dm.value) && !dm.value.settled
              && ArmedAt(env.trace, e.armed.value, dm.value.name, dm.value.armedAt)
              && |env.trace| == e.armed.value + 2
  {
    e := e0;
    var lock := LockClass(r.findings);
    if !lock {
      return true, None, e;
    }
    ghost var checked := env.trace;
    ghost var armed;
    dm, armed := Arm(env);
    e := e0.(armed := if dm.Some? then Some(armed) else None);
    ChecksGoOn(checked, env.trace, e.armed);
    ok := dm.Some?;
    if ok {
      ArmedIsCleared(hash, a, checked, env.trace, e0, armed, dm.value.name, dm.value.armedAt);
    }
  }

  /** Everything before the first change: it ends refused, or cleared with the revert armed if one is called for. */
  method Preflight(env: Env, hash: string -> string, a: Additions)
    returns (out: Outcome, files: seq<string>, dm: Option<DeadMan>, ghost e: Evidence)
    requires env.trace == []
    modifies env
    ensures out.state.PreflightFailed? && !out.reverted && out.holds.HoldsNone?
    ensures OnlyChecks(env.trace, if out.code == "" then e.armed else None)
    ensures out.code != "" ==> dm.None? && Refuses(hash, a, env.trace, out.code)
    ensures out.code == "" ==> Cleared(hash, a, env.trace, e) && e.files == files
    ensures out.code == "" ==> env.trace[e.backedUp] == TakeBackup(Some(out.backup))
    ensures out.code == "" ==> (dm.Some? <==> e.armed.Some?)
    ensures dm.Some? ==>
              && fresh(dm.value) && !dm.value.settled
              && ArmedAt(env.trace, e.armed.value, dm.value.name, dm.value.armedAt)
              && |env.trace| == e.armed.value + 2
  {
    out, files, dm := Outcome(PreflightFailed, "", HoldsNone, 0, 0, false), [], None;
    e := Evidence(0, 0, 0, [], [], 0, [], 0, None);
    TidyUp(env);
    assert OnlyChecks(env.trace, None);
    label Swept:
    var code, r;
    ghost var identified, rendered;
    code, r, identified, rendered := Check(env, hash, a);
    ChecksGoOn(old@Swept(env.trace), env.trace, None);
    if code != "" {
      out := out.(code := code);
      return;
    }
    out, files, e := Stage(env, hash, a, r, identified, rendered);
    if out.code != "" {
      return;
    }
    var armed;
    armed, dm, e := ArmFor(env, hash, a, r, e);
    if !armed {
      out := out.(code := "dead-man");
    }
  }

  predicate IsOkImport(e: Event, file: string) {
    e.Import? && !e.dryRun && e.file == file && e.reply.ok
  }

  /** Real imports, one file after the other from `start` on, all but the last of them known to have succeeded. */
  ghost predicate ImportsFrom(trace: seq<Event>, start: nat, files: seq<string>, count: nat) {
    && count <= |files| && start + count <= |trace|
    && (forall i :: start <= i < start + count ==> IsRealImport(trace[i]) && trace[i].file == files[i - start])
    && (forall i :: start <= i < start + count - 1 ==> trace[i].reply.ok)
  }

  /** Every part was imported, and every one succeeded. */
  ghost predicate AllImported(trace: seq<Event>, start: nat, files: seq<string>) {
    && start + |files| <= |trace|
    && (forall i :: start <= i < start + |files| ==> IsOkImport(trace[i], files[i - start]))
  }

  predicate FailedHoldingNone(e: Event) {
    e.Import? && !e.reply.ok && e.reply.holds.HoldsNone?
  }

  /** What is said of a router whose n-th import failed: nothing applied only if it was the first and said so. */
  ghost predicate IsStopped(out: Outcome, n: nat, e: Event) {
    && e.Import? && !e.reply.ok && out.part == n && out.code == "import"
    && (out.state.Failed? <==> n == 1 && e.reply.holds.HoldsNone?) && (out.state.Failed? <==> out.holds.HoldsNone?)
    && (out.state.Unknown? <==> e.reply.holds.HoldsUnknown?) && (out.state.Unknown? <==> out.holds.HoldsUnknown?)
    && (out.state.FailedPartial? <==> out.holds.HoldsPart?)
    && (out.state.Failed? || out.state.Unknown? || out.state.FailedPartial?)
  }

  /** The parts in turn, stopping at the first that fails. */
  method ImportAll(env: Env, files: seq<string>, out0: Outcome) returns (out: Outcome, ghost count: nat)
    modifies env
    ensures old(env.trace) <= env.trace && |env.trace| == |old(env.trace)| + count
    ensures ImportsFrom(env.trace, |old(env.trace)|, files, count)
    ensures files != [] ==> count > 0
    ensures !out.state.PreflightFailed? && out.reverted == out0.reverted && out.backup == out0.backup
    ensures out.state.Applied? <==> AllImported(env.trace, |old(env.trace)|, files)
    ensures out.state.Applied? <==> out.holds.HoldsAll?
    ensures !out.state.Applied? ==> count > 0 && IsStopped(out, count, env.trace[|env.trace| - 1])
    ensures out.holds.HoldsNone? ==> count == 1 && FailedHoldingNone(env.trace[|old(env.trace)|])
  {
    out := out0.(state := Applied, holds := HoldsAll);
    count := 0;
    for i := 0 to |files|
      invariant count == i && old(env.trace) <= env.trace && |env.trace| == |old(env.trace)| + i
      invariant ImportsFrom(env.trace, |old(env.trace)|, files, i)
      invariant AllImported(env.trace, |old(env.trace)|, files[..i])
      invariant out == out0.(state := Applied, holds := HoldsAll)
    {
      var reply: ImportReply := Answer();
      env.Exchange(Import(files[i], false, reply));
      count := count + 1;
      if !reply.ok {
        out := out.(part := i + 1, code := "import");
        if reply.holds.HoldsNone? && i == 0 {
          out := out.(state := Failed, holds := HoldsNone);
        } else if reply.holds.HoldsUnknown? {
          out := out.(state := Unknown, holds := HoldsUnknown);
        } else {
          out := out.(state := FailedPartial, holds := HoldsPart);
        }
        assert !IsOkImport(env.trace[|old(env.trace)| + i], files[i]);
        return;
      }
    }
    assert files[..|files|] == files;
  }

  /** A login got through to the planned router, the firewall's settling time after the last import. */
  ghost predicate LoginProved(trace: seq<Event>, from: nat, planned: Identity) {
    exists l :: from < l < |trace| && IsLoginTo(trace[l], planned) && trace[from] == Sleep(FIREWALL_SETTLE)
  }

  lemma LoginStays(trace: seq<Event>, more: seq<Event>, from: nat, planned: Identity)
    requires trace <= more && LoginProved(trace, from, planned)
    ensures LoginProved(more, from, planned)
  {
    var l :| from < l < |trace| && IsLoginTo(trace[l], planned) && trace[from] == Sleep(FIREWALL_SETTLE);
    assert more[l] == trace[l] && more[from] == trace[from];
  }

  /** Neither changes the router nor arms a revert, and removes at most this one. */
  ghost predicate OnlySettles(trace: seq<Event>, from: nat, dm: Option<DeadMan>) {
    forall i :: from <= i < |trace| ==>
      && !IsRealImport(trace[i]) && !trace[i].SweepFiles? && !trace[i].AddScheduler?
      && (trace[i].RemoveScheduler? ==> dm.Some? && IsDisarmAttempt(trace, dm.value.name, i))
  }

  /** There was no revert to take away, or it was taken away. */
  ghost predicate IsRid(trace: seq<Event>, from: nat, dm: Option<DeadMan>) {
    dm.Some? ==> DisarmedSince(trace, from, dm.value.name)
  }

  /** What the imports came to is what is said in the end, unless the way in was lost. */
  ghost predicate IsLastWord(out: Outcome, out0: Outcome, through: bool, armed: bool) {
    if through then out == out0.(code := if out0.state.Applied? then "" else out0.code)
    else IsLockedOut(out, out0, armed)
  }

  /** A revert that would not go is still there after more logins. */
  lemma NotDisarmed(asked: seq<Event>, trace: seq<Event>, from: nat, name: string)
    requires from < |asked| && asked <= trace && !IsDisarmed(asked, name, from) && NoFinds(asked, from + 1, |asked|)
    requires forall i :: |asked| <= i < |trace| ==> IsQuiet(trace[i])
    ensures !DisarmedSince(trace, from, name)
  {
    assert forall i :: 0 <= i < |asked| ==> trace[i] == asked[i];
  }

  /** Takes the revert away, or waits for it when it will not go. */
  method DisarmOrWait(env: Env, d: DeadMan, out0: Outcome) returns (gone: bool, out: Outcome, ghost seenAt: nat)
    requires !d.settled && !out0.reverted
    modifies env, d
    ensures old(env.trace) < env.trace && OnlySettles(env.trace, |old(env.trace)|, Some(d))
    ensures gone <==> DisarmedSince(env.trace, |old(env.trace)|, d.name)
    ensures if gone then out == out0 else IsLockedOut(out, out0, true)
    ensures d.settled == (gone || out.reverted)
    ensures out.reverted ==> |old(env.trace)| <= seenAt && HasReverted(env.trace, d.armedAt, seenAt)
  {
    out, seenAt := out0, 0;
    gone := Disarm(env, d);
    ghost var asked := env.trace;
    if gone {
      assert IsDisarmed(env.trace, d.name, |old(env.trace)|);
    } else {
      out, seenAt := LockedOut(env, Some(d), out0);
      NotDisarmed(asked, env.trace, |old(env.trace)|, d.name);
    }
  }

  /** Once let in, the revert is taken away; it is waited for if it will not go or nothing got in. */
  method Settle(env: Env, letIn: bool, dm: Option<DeadMan>, out0: Outcome) returns (out: Outcome, ghost seenAt: nat)
    requires dm.Some? ==> !dm.value.settled
    requires !out0.state.PreflightFailed? && !out0.reverted
    modifies env, if dm.Some? then {dm.value} else {}
    ensures old(env.trace) <= env.trace && OnlySettles(env.trace, |old(env.trace)|, dm)
    ensures IsLastWord(out, out0, letIn && IsRid(env.trace, |old(env.trace)|, dm), dm.Some?)
    ensures dm.Some? ==> (dm.value.settled <==> (letIn && IsRid(env.trace, |old(env.trace)|, dm)) || out.reverted)
    ensures dm.Some? && !letIn ==> !IsRid(env.trace, |old(env.trace)|, dm)
    ensures out.reverted ==> |old(env.trace)| <= seenAt && HasReverted(env.trace, dm.value.armedAt, seenAt)
    ensures out.state.Applied? ==> old(env.trace) < env.trace && env.trace[|env.trace| - 1].Export?
  {
    if !letIn {
      out, seenAt := LockedOut(env, dm, out0);
      return;
    }
    var _ := env.Now();
    out, seenAt := out0, 0;
    ghost var there := env.trace;
    if dm.Some? {
      var gone;
      gone, out, seenAt := DisarmOrWait(env, dm.value, out0);
      DisarmedLater(env.trace, |old(env.trace)|, |there|, dm.value.name);
      if !gone {
        return;
      }
    }
    if out.state.Applied? {
      ghost var rid := env.trace;
      var exported: bool := Answer();
      env.Exchange(Export(exported));
      RidStays(rid, env.trace, |old(env.trace)|, dm);
      out := out.(code := "");
    }
  }

  lemma RidStays(trace: seq<Event>, more: seq<Event>, from: nat, dm: Option<DeadMan>)
    requires trace <= more && IsRid(trace, from, dm)
    ensures IsRid(more, from, dm)
  {
    if dm.Some? {
      var i: nat :| i >= from && IsDisarmed(trace, dm.value.name, i);
      assert more[i] == trace[i] && more[i + 1] == trace[i + 1];
      assert IsDisarmed(more, dm.value.name, i);
    }
  }

  /** Logging in neither takes a revert away nor changes anything. */
  lemma QuietThenSettles(there: seq<Event>, trace: seq<Event>, from: nat, dm: Option<DeadMan>)
    requires from <= |there| && there <= trace && forall i :: from <= i < |there| ==> IsQuiet(there[i])
    requires OnlySettles(trace, |there|, dm)
    ensures OnlySettles(trace, from, dm) && (IsRid(trace, from, dm) <==> IsRid(trace, |there|, dm))
  {
    assert forall i :: 0 <= i < |there| ==> trace[i] == there[i];
    if dm.Some? {
      DisarmedLater(trace, from, |there|, dm.value.name);
    }
  }

  /** A login got through after the settling time, and no revert is left. */
  ghost predicate IsThrough(trace: seq<Event>, from: nat, a: Additions, dm: Option<DeadMan>) {
    GotThrough(trace, from + 2, a.planned, RECONNECT_WINDOW) && IsRid(trace, from, dm)
  }

  /** After the last import: log in afresh, then take the revert away or wait for it. */
  method Reconnect(env: Env, a: Additions, dm: Option<DeadMan>, out0: Outcome)
    returns (out: Outcome, ghost seenAt: nat)
    requires dm.Some? ==> !dm.value.settled
    requires !out0.state.PreflightFailed? && !out0.reverted
    modifies env, if dm.Some? then {dm.value} else {}
    ensures old(env.trace) <= env.trace && OnlySettles(env.trace, |old(env.trace)|, dm)
    ensures IsSettling(env.trace, |old(env.trace)|) && IsInOrOut(env.trace, |old(env.trace)| + 2, a.planned, RECONNECT_WINDOW)
    ensures IsLastWord(out, out0, IsThrough(env.trace, |old(env.trace)|, a, dm), dm.Some?)
    ensures dm.Some? ==> (dm.value.settled <==> IsRid(env.trace, |old(env.trace)|, dm) || out.reverted)
    ensures out.reverted ==> |old(env.trace)| <= seenAt && HasReverted(env.trace, dm.value.armedAt, seenAt)
    ensures out.state.Applied? ==> old(env.trace) < env.trace && env.trace[|env.trace| - 1].Export?
  {
    var _ := env.Now();
    env.Wait(FIREWALL_SETTLE);
    assert env.trace[|old(env.trace)| + 1] == Sleep(FIREWALL_SETTLE);
    var ok := FreshLogin(env, a.planned, RECONNECT_WINDOW);
    ghost var asked := env.trace;
    out, seenAt := Settle(env, ok, dm, out0);
    LetInOrOut(asked, env.trace, |old(env.trace)| + 2, a.planned, RECONNECT_WINDOW);
    QuietThenSettles(asked, env.trace, |old(env.trace)|, dm);
  }

  /** The import at `i` is of the next file, and every one before it succeeded. */
  ghost predicate IsNextImport(trace: seq<Event>, start: nat, files: seq<string>, i: nat)
    requires i < |trace|
  {
    && start <= i < start + |files| && trace[i].Import? && trace[i].file == files[i - start]
    && (forall j :: start <= j < i ==> IsOkImport(trace[j], files[j - start]))
  }

  /**
   A real import only after everything that has to come before it, of the
   checked files in their order and no further than the first that failed; none
   at all when preflight failed.
   */
  ghost predicate ImportsGated(hash: string -> string, a: Additions, trace: seq<Event>, out: Outcome, start: nat, e: Evidence) {
    && (forall i :: 0 <= i < |trace| && IsRealImport(trace[i]) ==>
          !out.state.PreflightFailed? && IsNextImport(trace, start, e.files, i))
    && (!out.state.PreflightFailed? ==> start <= |trace| && Cleared(hash, a, trace[..start], e))
    && (!out.state.PreflightFailed? && e.files != [] ==> start < |trace| && IsRealImport(trace[start]))
  }

  /** A revert is armed only then, and nothing takes it away but its own disarming until it is out of the way. */
  ghost predicate RevertKept(trace: seq<Event>, out: Outcome, e: Evidence) {
    && (forall i :: 0 <= i < |trace| && trace[i].AddScheduler? && trace[i].ok ==>
          !out.state.PreflightFailed? && e.armed == Some(i))
    && (!out.state.PreflightFailed? && e.armed.Some? ==>
          forall i :: e.armed.value < i < |trace| ==> LeavesRevert(trace, e.armed.value, i))
  }

  ghost predicate LeavesRevert(trace: seq<Event>, armed: nat, i: nat)
    requires armed < i < |trace|
  {
    trace[i].SweepFiles? || trace[i].RemoveScheduler? ==>
      || WasDisarmed(trace[..i], armed)
      || WasReverted(trace[..i], armed)
      || (trace[i].RemoveScheduler? && trace[armed].AddScheduler? && IsDisarmAttempt(trace, trace[armed].name, i))
  }

  /** "Applied" and "reverted" are said only of routers that showed it, and "nothing applied" likewise. */
  ghost predicate ClaimsShown(a: Additions, trace: seq<Event>, out: Outcome, start: nat, e: Evidence) {
    && (out.state.Applied? ==>
          && AllImported(trace, start, e.files)
          && LoginProved(trace, start + |e.files| + 1, a.planned)
          && (e.armed.Some? ==> WasDisarmed(trace, e.armed.value)))
    && (out.reverted ==> !out.state.PreflightFailed? && e.armed.Some? && WasReverted(trace, e.armed.value))
    && (out.holds.HoldsNone? && !out.state.PreflightFailed? && !out.reverted ==>
          start < |trace| && FailedHoldingNone(trace[start]))
  }

  /** A login got through after the settling time, and the revert, if one was armed, was taken away. */
  ghost predicate CameThrough(a: Additions, trace: seq<Event>, from: nat, armed: Option<nat>) {
    && GotThrough(trace, from + 2, a.planned, RECONNECT_WINDOW)
    && (armed.Some? ==> WasDisarmed(trace, armed.value))
  }

  /** What is said of the imports alone. */
  ghost predicate ImportsSaid(trace: seq<Event>, said: Outcome, start: nat, count: nat, files: seq<string>) {
    if AllImported(trace, start, files) then said.state.Applied? && said.holds.HoldsAll?
    else 0 < count <= |trace| - start && IsStopped(said, count, trace[start + count - 1])
  }

  /** After the last import comes a look at the clock and then the settling time. */
  ghost predicate IsSettling(trace: seq<Event>, from: nat) {
    from + 1 < |trace| && trace[from].ReadClock? && trace[from + 1] == Sleep(FIREWALL_SETTLE)
  }

  /**
   How a run past preflight ends. If it came through, as "applied" when every
   file was imported and otherwise with what the import that failed left; if
   not, without the way in.
   */
  ghost predicate EndShown(a: Additions, trace: seq<Event>, out: Outcome, start: nat, count: nat, e: Evidence) {
    && ImportsFrom(trace, start, e.files, count) && IsSettling(trace, start + count)
    && e.backedUp < start && trace[e.backedUp] == TakeBackup(Some(out.backup))
    && IsInOrOut(trace, start + count + 2, a.planned, RECONNECT_WINDOW)
    && (CameThrough(a, trace, start + count, e.armed) ==>
          && !out.reverted && ImportsSaid(trace, out, start, count, e.files)
          && (out.state.Applied? ==> out.code == "" && exists i :: start + count < i < |trace| && trace[i].Export?))
    && (!CameThrough(a, trace, start + count, e.armed) ==>
          exists said :: ImportsSaid(trace, said, start, count, e.files) && IsLockedOut(out, said, e.armed.Some?))
  }

  /** A sweep comes last, and it is not the one the run begins with. */
  ghost predicate EndsSwept(trace: seq<Event>) {
    exists q: nat :: q > 0 && IsSweep(trace, q)
  }

  /** The final sweep changes nothing of how a run ended. */
  lemma EndStays(a: Additions, trace: seq<Event>, more: seq<Event>, out: Outcome, start: nat, count: nat, e: Evidence)
    requires trace <= more && EndShown(a, trace, out, start, count, e)
    requires forall i :: |trace| <= i < |more| ==> IsOfSweep(more[i])
    requires |trace| < |more| ==> more[|trace|].SweepFiles?
    requires e.armed.Some? ==> e.armed.value < |trace|
    ensures EndShown(a, more, out, start, count, e)
  {
    assert forall i :: 0 <= i < |trace| ==> more[i] == trace[i];
    LetInOrOut(trace, more, start + count + 2, a.planned, RECONNECT_WINDOW);
    if e.armed.Some? {
      SweepDisarmsNothing(trace, more, e.armed.value);
    }
    forall said
      ensures ImportsSaid(trace, said, start, count, e.files) <==> ImportsSaid(more, said, start, count, e.files)
    {
      SaidStays(trace, more, said, start, count, e.files);
    }
  }

  lemma SaidStays(trace: seq<Event>, more: seq<Event>, said: Outcome, start: nat, count: nat, files: seq<string>)
    requires trace <= more && start + count <= |trace|
    requires forall i :: |trace| <= i < |more| ==> IsOfSweep(more[i])
    ensures ImportsSaid(trace, said, start, count, files) <==> ImportsSaid(more, said, start, count, files)
  {
    assert forall i :: 0 <= i < |trace| ==> more[i] == trace[i];
    assert AllImported(trace, start, files) ==> AllImported(more, start, files);
    var last := start + |files| - 1;
    assert files != [] && |trace| <= last < |more| ==> !IsOkImport(more[last], files[|files| - 1]);
  }

  /** A removal right after a sweep's first exchange is not the end of a disarming. */
  lemma SweepDisarmsNothing(trace: seq<Event>, more: seq<Event>, armed: nat)
    requires trace <= more && armed < |trace|
    requires forall i :: |trace| <= i < |more| ==> IsOfSweep(more[i])
    requires |trace| < |more| ==> more[|trace|].SweepFiles?
    ensures WasDisarmed(more, armed) <==> WasDisarmed(trace, armed)
  {
    assert forall i :: 0 <= i < |trace| ==> more[i] == trace[i];
    ShownStays(trace, more, armed);
    if WasDisarmed(more, armed) {
      var i: nat :| i > armed && IsDisarmed(more, more[armed].name, i);
      assert i + 1 < |trace|;
      assert IsDisarmed(trace, trace[armed].name, i);
    }
  }

  /** The final sweep, when it comes, comes after the revert is out of the way. */
  lemma SweepLeavesRevert(trace: seq<Event>, more: seq<Event>, armed: nat)
    requires trace <= more && armed < |trace|
    requires forall i :: armed < i < |trace| ==> LeavesRevert(trace, armed, i)
    requires |trace| < |more| ==> WasDisarmed(trace, armed) || WasReverted(trace, armed)
    ensures forall i :: armed < i < |more| ==> LeavesRevert(more, armed, i)
  {
    forall i | armed < i < |more|
      ensures LeavesRevert(more, armed, i)
    {
      if i < |trace| {
        assert more[..i] == trace[..i];
        assert more[i] == trace[i] && more[armed] == trace[armed] && more[i - 1] == trace[i - 1];
        assert LeavesRevert(trace, armed, i);
      } else {
        ShownStays(trace, more[..i], armed);
      }
    }
  }

  lemma ShownStays(trace: seq<Event>, more: seq<Event>, armed: nat)
    requires trace <= more && armed < |trace|
    ensures WasDisarmed(trace, armed) ==> WasDisarmed(more, armed)
    ensures WasReverted(trace, armed) ==> WasReverted(more, armed)
  {
    assert forall i :: 0 <= i < |trace| ==> more[i] == trace[i];
    if WasDisarmed(trace, armed) {
      var i: nat :| i > armed && IsDisarmed(trace, trace[armed].name, i);
      assert IsDisarmed(more, more[armed].name, i);
    }
    if WasReverted(trace, armed) {
      var i: nat :| i > armed && HasReverted(trace, trace[armed + 1].now, i);
      assert HasReverted(more, more[armed + 1].now, i);
    }
  }

  /** What is claimed of a run stays shown when more is exchanged. */
  lemma ClaimsStay(a: Additions, trace: seq<Event>, more: seq<Event>, out: Outcome, start: nat, e: Evidence)
    requires trace <= more && ClaimsShown(a, trace, out, start, e)
    requires e.armed.Some? ==> e.armed.value < |trace|
    ensures ClaimsShown(a, more, out, start, e)
  {
    assert forall i :: 0 <= i < |trace| ==> more[i] == trace[i];
    if out.state.Applied? {
      LoginStays(trace, more, start + |e.files| + 1, a.planned);
    }
    if e.armed.Some? {
      ShownStays(trace, more, e.armed.value);
    }
  }

  /** Real imports come first, of these files in turn; no revert is armed any more. */
  ghost predicate OnlyImports(trace: seq<Event>, start: nat, files: seq<string>) {
    forall i :: start <= i < |trace| ==>
      !trace[i].AddScheduler? && (IsRealImport(trace[i]) ==> IsNextImport(trace, start, files, i))
  }

  lemma ImportsStayGated(hash: string -> string, a: Additions, checked: seq<Event>, trace: seq<Event>, out: Outcome,
                         e: Evidence)
    requires Cleared(hash, a, checked, e) && OnlyChecks(checked, e.armed) && checked <= trace
    requires !out.state.PreflightFailed? && OnlyImports(trace, |checked|, e.files)
    requires e.files != [] ==> |checked| < |trace| && IsRealImport(trace[|checked|])
    ensures ImportsGated(hash, a, trace, out, |checked|, e)
    ensures forall i :: 0 <= i < |trace| && trace[i].AddScheduler? && trace[i].ok ==> e.armed == Some(i)
  {
    assert trace[..|checked|] == checked;
    assert forall i :: 0 <= i < |checked| ==> trace[i] == checked[i];
  }

  lemma OnlyImportsStays(trace: seq<Event>, more: seq<Event>, start: nat, files: seq<string>)
    requires trace <= more && OnlyImports(trace, start, files)
    requires forall i :: |trace| <= i < |more| ==> !IsRealImport(more[i]) && !more[i].AddScheduler?
    ensures OnlyImports(more, start, files)
  {
    assert forall i :: 0 <= i < |trace| ==> more[i] == trace[i];
  }

  lemma ImportsThenSettles(imported: seq<Event>, trace: seq<Event>, start: nat, files: seq<string>, count: nat,
                           dm: Option<DeadMan>)
    requires |imported| == start + count && ImportsFrom(imported, start, files, count) && imported <= trace
    requires OnlySettles(trace, start + count, dm)
    ensures OnlyImports(trace, start, files) && NoSweeps(trace, start)
    ensures forall i :: start <= i < start + count ==> IsRealImport(trace[i])
  {
    assert forall i :: 0 <= i < |imported| ==> trace[i] == imported[i];
  }

  /** The restore point and the arming are still there after more exchanges. */
  lemma StartStays(cleared: seq<Event>, trace: seq<Event>, e: Evidence, dm: Option<DeadMan>)
    requires cleared <= trace && e.backedUp < |cleared|
    requires dm.Some? ==> e.armed.Some? && ArmedAt(cleared, e.armed.value, dm.value.name, dm.value.armedAt)
    ensures trace[e.backedUp] == cleared[e.backedUp]
    ensures dm.Some? ==> ArmedAt(trace, e.armed.value, dm.value.name, dm.value.armedAt)
  {
    assert forall i :: 0 <= i < |cleared| ==> trace[i] == cleared[i];
  }

  /** Between arming and settling, nothing touches the revert but its own disarming. */
  lemma RevertIsLeft(trace: seq<Event>, armed: nat, count: nat, d: DeadMan)
    requires ArmedAt(trace, armed, d.name, d.armedAt) && armed + 2 + count <= |trace|
    requires forall i :: armed + 2 <= i < armed + 2 + count ==> IsRealImport(trace[i])
    requires OnlySettles(trace, armed + 2 + count, Some(d))
    ensures forall i :: armed < i < |trace| ==> LeavesRevert(trace, armed, i)
  {
  }

  lemma RevertIsSeen(trace: seq<Event>, armed: nat, d: DeadMan, seenAt: nat)
    requires ArmedAt(trace, armed, d.name, d.armedAt) && seenAt > armed && HasReverted(trace, d.armedAt, seenAt)
    ensures WasReverted(trace, armed)
  {
  }

  /** What is said in the end of a change follows from its imports, the fresh login and the revert. */
  lemma ChangeEnds(a: Additions, imported: seq<Event>, trace: seq<Event>, said: Outcome, out: Outcome, start: nat,
                   count: nat, dm: Option<DeadMan>, e: Evidence)
    requires |imported| == start + count && ImportsFrom(imported, start, e.files, count) && imported <= trace
    requires e.backedUp < start && trace[e.backedUp] == TakeBackup(Some(said.backup))
    requires said.state.Applied? <==> AllImported(imported, start, e.files)
    requires said.state.Applied? ==> said.holds.HoldsAll?
    requires !said.state.Applied? ==> count > 0 && IsStopped(said, count, imported[|imported| - 1])
    requires !said.reverted
    requires IsSettling(trace, |imported|) && IsInOrOut(trace, |imported| + 2, a.planned, RECONNECT_WINDOW)
    requires OnlySettles(trace, |imported|, dm) && IsLastWord(out, said, IsThrough(trace, |imported|, a, dm), dm.Some?)
    requires out.state.Applied? ==> trace[|trace| - 1].Export?
    requires dm.Some? <==> e.armed.Some?
    requires dm.Some? ==>
               && ArmedAt(trace, e.armed.value, dm.value.name, dm.value.armedAt) && start == e.armed.value + 2
    ensures EndShown(a, trace, out, start, count, e)
    ensures dm.Some? ==> (WasDisarmed(trace, e.armed.value) <==> IsRid(trace, |imported|, dm))
  {
    assert forall i :: 0 <= i < |imported| ==> trace[i] == imported[i];
    assert AllImported(trace, start, e.files) <==> AllImported(imported, start, e.files);
    assert ImportsSaid(trace, said, start, count, e.files);
    if dm.Some? {
      DisarmedLater(trace, e.armed.value + 1, |imported|, dm.value.name);
    }
  }

  /** What is claimed of a run follows from how it ended. */
  lemma EndIsClaimed(a: Additions, trace: seq<Event>, out: Outcome, start: nat, count: nat, e: Evidence)
    requires EndShown(a, trace, out, start, count, e) && !out.state.PreflightFailed?
    requires out.reverted ==> e.armed.Some? && WasReverted(trace, e.armed.value)
    ensures ClaimsShown(a, trace, out, start, e)
  {
    assert AllImported(trace, start, e.files) && count < |e.files| ==> IsOkImport(trace[start + count], e.files[count]);
  }

  /** From the first import to the last word on the revert. */
  method Change(env: Env, a: Additions, files: seq<string>, dm: Option<DeadMan>, out0: Outcome,
                ghost e: Evidence)
    returns (out: Outcome, ghost count: nat)
    requires e.files == files && !out0.reverted
    requires e.backedUp < |env.trace| && env.trace[e.backedUp] == TakeBackup(Some(out0.backup))
    requires dm.Some? <==> e.armed.Some?
    requires dm.Some? ==>
               && !dm.value.settled && ArmedAt(env.trace, e.armed.value, dm.value.name, dm.value.armedAt)
               && |env.trace| == e.armed.value + 2
    modifies env, if dm.Some? then {dm.value} else {}
    ensures old(env.trace) <= env.trace && !out.state.PreflightFailed?
    ensures files != [] ==> |old(env.trace)| < |env.trace| && IsRealImport(env.trace[|old(env.trace)|])
    ensures OnlyImports(env.trace, |old(env.trace)|, files)
    ensures e.armed.Some? ==>
              forall i :: e.armed.value < i < |env.trace| ==> LeavesRevert(env.trace, e.armed.value, i)
    ensures dm.Some? ==> (dm.value.settled <==> WasDisarmed(env.trace, e.armed.value) || out.reverted)
    ensures NoSweeps(env.trace, |old(env.trace)|)
    ensures EndShown(a, env.trace, out, |old(env.trace)|, count, e)
    ensures ClaimsShown(a, env.trace, out, |old(env.trace)|, e)
  {
    ghost var cleared := env.trace;
    out, count := ImportAll(env, files, out0);
    ghost var imported, said, seenAt := env.trace, out, 0;
    out, seenAt := Reconnect(env, a, dm, out);
    ImportsThenSettles(imported, env.trace, |cleared|, files, count, dm);
    StartStays(cleared, env.trace, e, dm);
    ChangeEnds(a, imported, env.trace, said, out, |cleared|, count, dm, e);
    if dm.Some? {
      RevertIsLeft(env.trace, e.armed.value, count, dm.value);
      if out.reverted {
        RevertIsSeen(env.trace, e.armed.value, dm.value, seenAt);
      }
    }
    EndIsClaimed(a, env.trace, out, |cleared|, count, e);
  }

  /** No revert is left armed. */
  ghost predicate IsSafeToSweep(trace: seq<Event>, out: Outcome, armed: Option<nat>) {
    armed.None? || WasDisarmed(trace, armed.value) || out.reverted
  }

  lemma SweptAtEnd(changed: seq<Event>, trace: seq<Event>, swept: bool)
    requires changed != [] && NoSweeps(changed, 1)
    requires if swept then IsSweep(trace, |changed|) else trace == changed
    ensures EndsSwept(trace) <==> swept
  {
  }

  /** A run is refused exactly when its exchanges show why, and it says which answer it was; nothing follows but a sweep. */
  ghost predicate RefusedExactlyWhen(hash: string -> string, a: Additions, trace: seq<Event>, out: Outcome, start: nat) {
    && start <= |trace|
    && (out.state.PreflightFailed? <==> exists code :: Refuses(hash, a, trace[..start], code))
    && (out.state.PreflightFailed? ==> Refuses(hash, a, trace[..start], out.code) && IsSweep(trace, start))
  }

  lemma NotRefused(hash: string -> string, a: Additions, trace: seq<Event>, e: Evidence)
    requires Cleared(hash, a, trace, e)
    ensures !exists code :: Refuses(hash, a, trace, code)
  {
    forall code
      ensures !Refuses(hash, a, trace, code)
    {
      ClearedIsNotRefused(hash, a, trace, e, code);
    }
  }

  /**
   On every run, whatever the router answers: what was issued, in what order,
   and what is claimed of it; and that it is refused only for what the router
   answered, ends otherwise as its last exchanges call for, and sweeps up
   exactly when no revert is left armed.
   */
  method RunAdditions(env: Env, hash: string -> string, a: Additions)
    returns (out: Outcome, ghost start: nat, ghost count: nat, ghost e: Evidence)
    requires env.trace == []
    modifies env
    ensures ImportsGated(hash, a, env.trace, out, start, e)
    ensures RevertKept(env.trace, out, e)
    ensures ClaimsShown(a, env.trace, out, start, e)
    ensures RefusedExactlyWhen(hash, a, env.trace, out, start)
    ensures !out.state.PreflightFailed? ==> EndShown(a, env.trace, out, start, count, e)
    ensures EndsSwept(env.trace) <==> out.state.PreflightFailed? || IsSafeToSweep(env.trace, out, e.armed)
  {
    var files, dm;
    out, files, dm, e := Preflight(env, hash, a);
    ghost var checked := env.trace;
    start, count := |checked|, 0;
    if out.code != "" {
      TidyUp(env);
      RefusalIsShown(hash, a, checked, env.trace, out, e);
      return;
    }
    out, count := ChangeAndTidy(env, hash, a, files, dm, out, e);
  }

  /** Past preflight: the change, and then a sweep if that cannot take away a revert still needed. */
  method ChangeAndTidy(env: Env, hash: string -> string, a: Additions, files: seq<string>, dm: Option<DeadMan>,
                       out0: Outcome, ghost e: Evidence)
    returns (out: Outcome, ghost count: nat)
    requires Cleared(hash, a, env.trace, e) && OnlyChecks(env.trace, e.armed) && e.files == files && !out0.reverted
    requires env.trace[e.backedUp] == TakeBackup(Some(out0.backup))
    requires dm.Some? <==> e.armed.Some?
    requires dm.Some? ==>
               && !dm.value.settled && ArmedAt(env.trace, e.armed.value, dm.value.name, dm.value.armedAt)
               && |env.trace| == e.armed.value + 2
    modifies env, if dm.Some? then {dm.value} else {}
    ensures !out.state.PreflightFailed?
    ensures ImportsGated(hash, a, env.trace, out, |old(env.trace)|, e) && RevertKept(env.trace, out, e)
    ensures ClaimsShown(a, env.trace, out, |old(env.trace)|, e)
    ensures EndShown(a, env.trace, out, |old(env.trace)|, count, e)
    ensures RefusedExactlyWhen(hash, a, env.trace, out, |old(env.trace)|)
    ensures EndsSwept(env.trace) <==> IsSafeToSweep(env.trace, out, e.armed)
  {
    ghost var checked := env.trace;
    out, count := Change(env, a, files, dm, out0, e);
    ghost var changed := env.trace;
    ghost var safe := dm.None? || dm.value.settled;
    assert safe <==> IsSafeToSweep(changed, out, e.armed);
    NoSweepsYet(checked, changed, e.armed);
    if dm.None? || dm.value.settled {
      TidyUp(env);
    }
    SweptAtEnd(changed, env.trace, safe);
    RunIsShown(hash, a, checked, changed, env.trace, out, count, e);
  }

  lemma NoSweepsYet(checked: seq<Event>, changed: seq<Event>, armed: Option<nat>)
    requires OnlyChecks(checked, armed) && checked <= changed && NoSweeps(changed, |checked|)
    ensures NoSweeps(changed, 1)
  {
    assert forall i :: 0 <= i < |checked| ==> changed[i] == checked[i];
  }

  /** A run that is refused has changed nothing but what a sweep does. */
  lemma RefusalIsShown(hash: string -> string, a: Additions, checked: seq<Event>, trace: seq<Event>, out: Outcome, e: Evidence)
    requires out.state.PreflightFailed? && !out.reverted && Refuses(hash, a, checked, out.code)
    requires checked != [] && OnlyChecks(checked, None) && checked <= trace && IsSweep(trace, |checked|)
    ensures ImportsGated(hash, a, trace, out, |checked|, e) && RevertKept(trace, out, e)
    ensures ClaimsShown(a, trace, out, |checked|, e) && RefusedExactlyWhen(hash, a, trace, out, |checked|)
    ensures EndsSwept(trace)
  {
    assert trace[..|checked|] == checked;
    assert forall i :: 0 <= i < |checked| ==> trace[i] == checked[i];
    assert forall i :: |checked| <= i < |trace| ==> IsOfSweep(trace[i]);
  }

  /** What held when the change was over still holds after the final sweep, if there is one. */
  lemma RunIsShown(hash: string -> string, a: Additions, checked: seq<Event>, changed: seq<Event>, trace: seq<Event>,
                   out: Outcome, count: nat, e: Evidence)
    requires checked <= changed <= trace && !out.state.PreflightFailed?
    requires Cleared(hash, a, checked, e) && OnlyChecks(checked, e.armed) && OnlyImports(changed, |checked|, e.files)
    requires e.files != [] ==> |checked| < |changed| && IsRealImport(changed[|checked|])
    requires e.armed.Some? ==> forall i :: e.armed.value < i < |changed| ==> LeavesRevert(changed, e.armed.value, i)
    requires ClaimsShown(a, changed, out, |checked|, e) && EndShown(a, changed, out, |checked|, count, e)
    requires forall i :: |changed| <= i < |trace| ==> IsOfSweep(trace[i])
    requires |changed| < |trace| ==> trace[|changed|].SweepFiles? && IsSafeToSweep(changed, out, e.armed)
    ensures ImportsGated(hash, a, trace, out, |checked|, e) && RevertKept(trace, out, e)
    ensures ClaimsShown(a, trace, out, |checked|, e) && EndShown(a, trace, out, |checked|, count, e)
    ensures RefusedExactlyWhen(hash, a, trace, out, |checked|)
    ensures IsSafeToSweep(trace, out, e.armed) <==> IsSafeToSweep(changed, out, e.armed)
  {
    EndStays(a, changed, trace, out, |checked|, count, e);
    NotRefused(hash, a, checked, e);
    assert trace[..|checked|] == checked;
    OnlyImportsStays(changed, trace, |checked|, e.files);
    ImportsStayGated(hash, a, checked, trace, out, e);
    ClaimsStay(a, changed, trace, out, |checked|, e);
    if e.armed.Some? {
      SweepDisarmsNothing(changed, trace, e.armed.value);
      SweepLeavesRevert(changed, trace, e.armed.value);
    }
  }

  // ---- What a finished run says of the router -------------------------------

  ghost predicate HasRealImport(trace: seq<Event>) {
    exists i :: 0 <= i < |trace| && IsRealImport(trace[i])
  }

  /** A text that is nothing but newlines: a template all of whose lines came to nothing renders to one. */
  ghost predicate IsBlank(text: string) {
    forall i :: 0 <= i < |text| ==> text[i] == '\n'
  }

  /**
   A run that ends "preflight-failed" imported nothing. The converse fails for
   one kind of text: past preflight a real import was issued exactly when what
   was rendered was not blank.
   */
  lemma ImportedExactlyWhen(hash: string -> string, a: Additions, trace: seq<Event>, out: Outcome, start: nat, e: Evidence)
    requires ImportsGated(hash, a, trace, out, start, e)
    ensures out.state.PreflightFailed? ==> !HasRealImport(trace)
    ensures !out.state.PreflightFailed? ==>
              && e.rendered < start <= |trace| && trace[e.rendered].Render? && trace[e.rendered].rendering.Some?
              && (HasRealImport(trace) <==> !IsBlank(trace[e.rendered].rendering.value.text))
  {
    if !out.state.PreflightFailed? {
      assert trace[..start][e.rendered] == trace[e.rendered];
      PartsFit(trace[e.rendered].rendering.value.text, MAX_PART);
    }
  }

  /** The exchanges of a run over a template that renders to nothing, on a router that answers everything at once. */
  ghost function BlankTrace(id: Identity): seq<Event> {
    [SweepFiles, ListSchedulers(Some([])), ReadIdentity(Some(id)), Render(Some(Rendering("", []))), TakeBackup(Some(1)),
     Render(Some(Rendering("", []))), ReadClock(0), Sleep(FIREWALL_SETTLE), ReadClock(5_000), Login(Some(id)),
     ReadClock(5_000), Export(true), SweepFiles, ListSchedulers(Some([]))]
  }

  /** It meets everything proved of a run that ends "applied", and nothing was imported. */
  lemma BlankRunEndsApplied(hash: string -> string, id: Identity) returns (a: Additions, out: Outcome, e: Evidence)
    ensures a.approved == hash("") && a.planned == id && out.state.Applied?
    ensures ImportsGated(hash, a, BlankTrace(id), out, 6, e)
    ensures RevertKept(BlankTrace(id), out, e) && ClaimsShown(a, BlankTrace(id), out, 6, e)
    ensures RefusedExactlyWhen(hash, a, BlankTrace(id), out, 6) && EndShown(a, BlankTrace(id), out, 6, 0, e)
    ensures EndsSwept(BlankTrace(id))
    ensures !HasRealImport(BlankTrace(id))
  {
    a := Additions(id, hash(""), {});
    out := Outcome(Applied, "", HoldsAll, 1, 0, false);
    e := Evidence(2, 3, 4, [], [], 5, [], 5, None);
    var trace := BlankTrace(id);
    BlankIsCleared(hash, id, a, e);
    BlankEnds(id, a, out, e);
    EndIsClaimed(a, trace, out, 6, 0, e);
    NotRefused(hash, a, trace[..6], e);
    assert IsSweep(trace, 12);
  }

  lemma BlankEnds(id: Identity, a: Additions, out: Outcome, e: Evidence)
    requires a.planned == id && e == Evidence(2, 3, 4, [], [], 5, [], 5, None)
    requires out == Outcome(Applied, "", HoldsAll, 1, 0, false)
    ensures EndShown(a, BlankTrace(id), out, 6, 0, e)
  {
    var trace := BlankTrace(id);
    assert IsLoginTo(trace[9], id) && trace[11].Export?;
    assert InWindow(trace, 8, 9, RECONNECT_WINDOW);
    NeverBoth(trace, 8, id, RECONNECT_WINDOW);
  }

  lemma BlankIsCleared(hash: string -> string, id: Identity, a: Additions, e: Evidence)
    requires a == Additions(id, hash(""), {}) && e == Evidence(2, 3, 4, [], [], 5, [], 5, None)
    ensures Cleared(hash, a, BlankTrace(id)[..6], e)
  {
    PartsFit("", MAX_PART);
    var trace := BlankTrace(id)[..6];
    assert trace[3] == Render(Some(Rendering("", []))) && trace[5] == trace[3];
    assert PartsReady(trace, "", e, 5);
  }

  /** Nothing was written between the j-th file's upload and its import but to files of other names. */
  ghost predicate NotOverwritten(trace: seq<Event>, start: nat, e: Evidence, j: nat)
    requires j < |e.files| == |e.uploads|
  {
    forall k :: e.uploads[j] + 1 < k < start + j && k < |trace| && trace[k].SetFile? ==>
      trace[k - 1].FindFile? && trace[k - 1].file != e.files[j]
  }

  /** Each file was filled with its part of a text, left alone, and then imported with success, in order. */
  ghost predicate RanParts(trace: seq<Event>, start: nat, e: Evidence, parts: seq<string>) {
    && AllUploaded(trace, e.files, parts, e.uploads, e.backedUp + 1, e.uploaded) && e.uploaded <= start
    && AllImported(trace, start, e.files)
    && (forall j :: 0 <= j < |e.files| ==> NotOverwritten(trace, start, e, j))
  }

  lemma LeftAlone(trace: seq<Event>, start: nat, e: Evidence, parts: seq<string>, j: nat)
    requires AllUploaded(trace, e.files, parts, e.uploads, e.backedUp + 1, e.uploaded) && j < |e.files|
    requires SetOnce(trace, e.files, e.uploads, e.backedUp + 1, e.uploaded) && e.uploaded <= start <= |trace|
    requires NoSets(trace, e.uploaded, start) && AllImported(trace, start, e.files)
    ensures NotOverwritten(trace, start, e, j)
  {
    assert forall k :: start <= k < start + |e.files| ==> IsOkImport(trace[k], e.files[k - start]);
    forall k | e.uploads[j] + 1 < k < start + j && k < |trace| && trace[k].SetFile?
      ensures trace[k - 1].FindFile? && trace[k - 1].file != e.files[j]
    {
      var i :| 0 <= i < |e.uploads| && e.uploads[i] == k - 1;
      assert IsUploaded(trace, e.files[i], parts[i], k - 1);
    }
  }

  /**
   "Applied" means that the router was sent, file by file and all successfully,
   exactly the commands of the text whose fingerprint was approved, each under
   the menu header it has in that text.
   */
  lemma AppliedRanTheText(hash: string -> string, a: Additions, trace: seq<Event>, out: Outcome, start: nat, e: Evidence)
    returns (text: string, parts: seq<string>)
    requires ImportsGated(hash, a, trace, out, start, e) && ClaimsShown(a, trace, out, start, e)
    requires out.state.Applied?
    ensures hash(text) == a.approved && RanParts(trace, start, e, parts) && CommandsOfAll(parts) == Commands(text)
  {
    text := trace[..start][e.rendered].rendering.value.text;
    parts := Cuts(text, MAX_PART).value;
    PartsKeepCommands(text, MAX_PART);
    UploadsStay(trace[..start], trace, e.files, parts, e.uploads, e.backedUp + 1, e.uploaded);
    SetOnceStays(trace[..start], trace, e.files, e.uploads, e.backedUp + 1, e.uploaded);
    assert forall k :: 0 <= k < start ==> trace[..start][k] == trace[k];
    forall j | 0 <= j < |e.files|
      ensures NotOverwritten(trace, start, e, j)
    {
      LeftAlone(trace, start, e, parts, j);
    }
  }
}
