/**
 What a deploy checks and sends before a router is changed, and what its trace
 of exchanges must then hold.
 */
module Deploy {
  import opened Wrappers
  import opened Router
  import opened Parts
  import Text

  // All times are in milliseconds.
  const DEAD_MAN_AFTER := 300_000
  const RECONNECT_WINDOW := 60_000
  const FIREWALL_SETTLE: nat := 5_000
  const COME_BACK_WINDOW := 660_000
  const BOOT_SLACK := 15_000
  const MAX_PART: nat := 60_000

  const LOCK_CODES := {"lockout-firewall", "lockout-unknown", "own-service-address", "vlan-filtering",
                       "lockout-interface", "lockout-address", "lockout-route", "lockout-port-vlan"}

  datatype Progress = PreflightFailed | Applied | Failed | FailedPartial | Unknown

  datatype Outcome = Outcome(state: Progress, code: string, holds: Holds, backup: int, part: nat, reverted: bool)

  /** What an operator approved: the router planned for, the text's fingerprint and the findings acknowledged. */
  datatype Additions = Additions(planned: Identity, approved: string, acked: set<(string, int)>)

  function FindingKey(f: Finding): (string, int) {
    (f.code, f.line)
  }

  /** What the findings come to, in whatever order they are listed. */
  ghost function Keys(fs: seq<Finding>): multiset<Finding> {
    multiset(fs)
  }

  ghost predicate IsLockClass(fs: seq<Finding>) {
    exists i :: 0 <= i < |fs| && fs[i].code in LOCK_CODES
  }

  method LockClass(fs: seq<Finding>) returns (lock: bool)
    ensures lock <==> IsLockClass(fs)
  {
    for i := 0 to |fs|
      invariant forall j :: 0 <= j < i ==> fs[j].code !in LOCK_CODES
    {
      if fs[i].code in LOCK_CODES {
        return true;
      }
    }
    return false;
  }

  /** What the operator has to have seen and accepted. */
  ghost predicate IsApproved(hash: string -> string, r: Rendering, a: Additions) {
    && hash(r.text) == a.approved
    && (forall i :: 0 <= i < |r.findings| ==>
          && !r.findings[i].level.Refuse?
          && (r.findings[i].level.Ack? ==> (r.findings[i].code, r.findings[i].line) in a.acked))
  }

  /** Some finding has to be acknowledged and was not, as the finding of its code at its line. */
  ghost predicate MissesAck(r: Rendering, a: Additions) {
    exists i :: 0 <= i < |r.findings| && r.findings[i].level.Ack?
                && (r.findings[i].code, r.findings[i].line) !in a.acked
  }

  ghost predicate HasRefused(r: Rendering) {
    exists i :: 0 <= i < |r.findings| && r.findings[i].level.Refuse?
  }

  method JudgeRendering(hash: string -> string, r: Rendering, a: Additions) returns (code: string)
    ensures code == "" <==> IsApproved(hash, r, a)
    ensures code == "changed-since-preview" <==> hash(r.text) != a.approved
    ensures code == "refused" <==> hash(r.text) == a.approved && HasRefused(r)
    ensures code == "needs-ack" <==> hash(r.text) == a.approved && !HasRefused(r) && MissesAck(r, a)
    ensures code in {"", "changed-since-preview", "refused", "needs-ack"}
  {
    if hash(r.text) != a.approved {
      return "changed-since-preview";
    }
    var missing := 0;
    for i := 0 to |r.findings|
      invariant forall j :: 0 <= j < i ==> !r.findings[j].level.Refuse?
      invariant missing == 0 <==>
                  forall j :: 0 <= j < i && r.findings[j].level.Ack? ==> FindingKey(r.findings[j]) in a.acked
      invariant missing >= 0
    {
      match r.findings[i].level
      case Refuse => return "refused";
      case Ack =>
        if FindingKey(r.findings[i]) !in a.acked {
          missing := missing + 1;
        }
      case Note =>
    }
    if missing > 0 {
      return "needs-ack";
    }
    return "";
  }

  // ---- What a trace may hold ------------------------------------------------

  predicate IsRealImport(e: Event) {
    e.Import? && !e.dryRun
  }

  /** An exchange that neither changes the router's configuration nor takes a revert away. */
  predicate IsHarmless(e: Event) {
    !IsRealImport(e) && !e.SweepFiles? && !e.RemoveScheduler?
  }

  ghost predicate HarmlessFrom(trace: seq<Event>, from: nat) {
    forall i :: from <= i < |trace| ==> IsHarmless(trace[i])
  }

  /** Where on the trace each thing that has to come before an import happened. */
  datatype Evidence = Evidence(identified: nat, rendered: nat, backedUp: nat, files: seq<string>,
                               uploads: seq<nat>, uploaded: nat, dryRuns: seq<nat>, rechecked: nat, armed: Option<nat>)

  /** Every part of a text was put in its file and then parsed by the router, by some point. */
  ghost predicate PartsReady(trace: seq<Event>, text: string, e: Evidence, end: nat) {
    var parts := Cuts(text, MAX_PART);
    && parts.Some?
    && AllUploaded(trace, e.files, parts.value, e.uploads, e.backedUp + 1, e.uploaded) && e.uploaded <= end
    && SetOnce(trace, e.files, e.uploads, e.backedUp + 1, e.uploaded)
    && AllParsed(trace, e.files, e.dryRuns, e.uploaded, end)
  }

  lemma PartsStay(trace: seq<Event>, more: seq<Event>, text: string, e: Evidence, end: nat)
    requires trace <= more && PartsReady(trace, text, e, end)
    ensures PartsReady(more, text, e, end)
  {
    var parts := Cuts(text, MAX_PART).value;
    UploadsStay(trace, more, e.files, parts, e.uploads, e.backedUp + 1, e.uploaded);
    SetOnceStays(trace, more, e.files, e.uploads, e.backedUp + 1, e.uploaded);
    ParsedStays(trace, more, e.files, e.dryRuns, e.uploaded, end);
  }

  /** Every file has a name of its own, and nothing is written but at its upload. */
  ghost predicate SetOnce(trace: seq<Event>, files: seq<string>, uploads: seq<nat>, from: nat, to: nat) {
    && to <= |trace|
    && (forall i, j :: 0 <= i < j < |files| ==> files[i] != files[j])
    && (forall k :: from <= k < to && trace[k].SetFile? ==> k > 0 && k - 1 in uploads)
  }

  ghost predicate NoSets(trace: seq<Event>, from: nat, to: nat)
    requires to <= |trace|
  {
    forall k :: from <= k < to ==> !trace[k].SetFile?
  }

  ghost predicate AllUploaded(trace: seq<Event>, files: seq<string>, parts: seq<string>, uploads: seq<nat>,
                              from: nat, to: nat) {
    && |files| == |uploads| == |parts|
    && (forall j :: 0 <= j < |parts| ==>
          from <= uploads[j] && uploads[j] + 1 < to && IsUploaded(trace, files[j], parts[j], uploads[j]))
  }

  ghost predicate AllParsed(trace: seq<Event>, files: seq<string>, dryRuns: seq<nat>, from: nat, to: nat) {
    && |dryRuns| == |files| && to <= |trace|
    && (forall j :: 0 <= j < |files| ==> from <= dryRuns[j] < to && IsPassedDryRun(trace[dryRuns[j]], files[j]))
  }

  lemma UploadsStay(trace: seq<Event>, more: seq<Event>, files: seq<string>, parts: seq<string>, uploads: seq<nat>,
                    from: nat, to: nat)
    requires trace <= more && AllUploaded(trace, files, parts, uploads, from, to)
    ensures AllUploaded(more, files, parts, uploads, from, to)
  {
    forall j | 0 <= j < |parts|
      ensures IsUploaded(more, files[j], parts[j], uploads[j])
    {
      assert more[uploads[j]] == trace[uploads[j]] && more[uploads[j] + 1] == trace[uploads[j] + 1];
    }
  }

  lemma ParsedStays(trace: seq<Event>, more: seq<Event>, files: seq<string>, dryRuns: seq<nat>, from: nat, to: nat)
    requires trace <= more && AllParsed(trace, files, dryRuns, from, to)
    ensures AllParsed(more, files, dryRuns, from, to)
  {
  }

  /** A file was found where it had been added, and its contents were set. */
  ghost predicate IsUploaded(trace: seq<Event>, file: string, body: string, i: nat) {
    && i + 1 < |trace|
    && trace[i].FindFile? && trace[i].file == file && trace[i].found.Some?
    && trace[i + 1] == SetFile(trace[i].found.value, body, true)
  }

  predicate IsPassedDryRun(e: Event, file: string) {
    e.Import? && e.file == file && e.dryRun && e.reply.ok
  }

  /** The board, the serial and the version are the ones planned for. */
  ghost predicate IsPlanned(id: Identity, planned: Identity) {
    id.board == planned.board && id.serial == planned.serial && id.osVersion == planned.osVersion
  }

  ghost predicate NoRender(trace: seq<Event>, to: nat)
    requires to <= |trace|
  {
    forall i :: 0 <= i < to ==> !trace[i].Render?
  }

  ghost predicate IsFirstRender(trace: seq<Event>, i: int) {
    0 <= i < |trace| && trace[i].Render? && NoRender(trace, i)
  }

  /** Everything the code must have seen, in this order, before it may change the router. */
  ghost predicate Checked(hash: string -> string, a: Additions, trace: seq<Event>, e: Evidence) {
    && e.identified < e.rendered < e.backedUp < e.rechecked < |trace|
    && trace[e.identified].ReadIdentity? && trace[e.identified].identity.Some?
    && IsPlanned(trace[e.identified].identity.value, a.planned)
    && IsFirstRender(trace, e.rendered) && trace[e.rendered].rendering.Some?
    && IsApproved(hash, trace[e.rendered].rendering.value, a)
    && trace[e.backedUp].TakeBackup? && trace[e.backedUp].backup.Some?
    && PartsReady(trace, trace[e.rendered].rendering.value.text, e, e.rechecked)
    && trace[e.rechecked].Render? && trace[e.rechecked].rendering.Some?
    && hash(trace[e.rechecked].rendering.value.text) == a.approved
    && Keys(trace[e.rechecked].rendering.value.findings) == Keys(trace[e.rendered].rendering.value.findings)
  }

  /** The revert is on the router: saved, waited for, scheduled, and its time noted. */
  ghost predicate ArmedAt(trace: seq<Event>, armed: nat, name: string, armedAt: int) {
    && 2 <= armed && armed + 1 < |trace|
    && trace[armed - 2] == SaveRevert(name, true) && trace[armed - 1] == AwaitRevert(name, true)
    && trace[armed] == AddScheduler(name, true) && trace[armed + 1] == ReadClock(armedAt)
  }

  /** And with an automatic revert armed after all that, if the findings call for one. */
  ghost predicate Cleared(hash: string -> string, a: Additions, trace: seq<Event>, e: Evidence) {
    && Checked(hash, a, trace, e)
    && NoSets(trace, e.uploaded, |trace|)
    && (IsLockClass(trace[e.rendered].rendering.value.findings) <==> e.armed.Some?)
    && (e.armed.Some? ==>
          && e.rechecked + 2 < e.armed.value && e.armed.value + 1 < |trace|
          && trace[e.armed.value].AddScheduler? && trace[e.armed.value + 1].ReadClock?
          && ArmedAt(trace, e.armed.value, trace[e.armed.value].name, trace[e.armed.value + 1].now))
    && |trace| == (if e.armed.Some? then e.armed.value + 2 else e.rechecked + 1)
  }

  // ---- Why a run is refused -------------------------------------------------

  /** What the trace ends with shows that the router is not the one planned for, or its rendering not the one approved. */
  ghost predicate CheckRefuses(hash: string -> string, a: Additions, trace: seq<Event>, code: string) {
    && trace != []
    && var last := trace[|trace| - 1];
       || (code == "unreachable" && last == ReadIdentity(None))
       || (code == "identity-changed" && last.ReadIdentity? && last.identity.Some?
           && !IsPlanned(last.identity.value, a.planned))
       || (IsFirstRender(trace, |trace| - 1) && RenderingRefuses(hash, a, last.rendering, code))
  }

  ghost predicate RenderingRefuses(hash: string -> string, a: Additions, r: Option<Rendering>, code: string) {
    match r
    case None => code == "prepare"
    case Some(r) =>
      || (code == "changed-since-preview" && hash(r.text) != a.approved)
      || (code == "refused" && hash(r.text) == a.approved && HasRefused(r))
      || (code == "needs-ack" && hash(r.text) == a.approved && !HasRefused(r) && MissesAck(r, a))
  }

  /** An exchange of an upload that was refused, or a name that could not be minted. */
  ghost predicate UploadRefused(e: Event) {
    e == MintFile(None) || (e.AddFile? && !e.ok) || (e.FindFile? && e.found.None?) || (e.SetFile? && !e.ok)
  }

  ghost predicate DryRunRefused(trace: seq<Event>) {
    && |trace| >= 2 && trace[|trace| - 1].Report?
    && IsFailedDryRun(trace[|trace| - 2], trace[|trace| - 1].file)
  }

  /** It ends without a restore point, with a line too long for a file, an upload refused or a part that did not parse. */
  ghost predicate FilesRefuse(trace: seq<Event>, code: string) {
    && trace != []
    && var last := trace[|trace| - 1];
       || (code == "no-restore-point" && last == TakeBackup(None))
       || (code == "too-large" && last.TakeBackup? && last.backup.Some?
           && exists i :: IsFirstRender(trace, i) && IsTooLarge(trace[i].rendering))
       || (code == "upload" && UploadRefused(last))
       || (code == "dry-run" && DryRunRefused(trace))
  }

  ghost predicate IsTooLarge(r: Option<Rendering>) {
    r.Some? && HasTooLong("", Text.Split(TrimNewlines(r.value.text), '\n'), MAX_PART)
  }

  /** It ends with a second rendering that is missing, or differs from the first. */
  ghost predicate RecheckRefuses(hash: string -> string, trace: seq<Event>, code: string) {
    && trace != [] && trace[|trace| - 1].Render? && code == "changed-during-deploy"
    && exists i :: i < |trace| - 1 && IsFirstRender(trace, i) && IsOtherRendering(hash, trace[i].rendering, trace[|trace| - 1].rendering)
  }

  ghost predicate IsOtherRendering(hash: string -> string, first: Option<Rendering>, second: Option<Rendering>) {
    && first.Some?
    && (second.None? || hash(second.value.text) != hash(first.value.text)
        || Keys(second.value.findings) != Keys(first.value.findings))
  }

  /** It ends with an exchange of arming that was refused, or a name that could not be minted. */
  ghost predicate ArmRefuses(trace: seq<Event>, code: string) {
    && trace != [] && code == "dead-man"
    && var last := trace[|trace| - 1];
       || last == MintRevert(None) || (last.SaveRevert? && !last.ok) || (last.AwaitRevert? && !last.ok)
       || (last.AddScheduler? && !last.ok)
  }

  /** What the trace ends with is the answer that a refusal under this code is for. */
  ghost predicate Refuses(hash: string -> string, a: Additions, trace: seq<Event>, code: string) {
    || CheckRefuses(hash, a, trace, code) || FilesRefuse(trace, code)
    || RecheckRefuses(hash, trace, code) || ArmRefuses(trace, code)
  }

  lemma OneFirstRender(trace: seq<Event>, i: int, j: int)
    requires IsFirstRender(trace, i) && IsFirstRender(trace, j)
    ensures i == j
  {
  }

  /** A trace with everything in order ends with no refusal. */
  lemma ClearedIsNotRefused(hash: string -> string, a: Additions, trace: seq<Event>, e: Evidence, code: string)
    requires Cleared(hash, a, trace, e)
    ensures !Refuses(hash, a, trace, code)
  {
    assert trace[|trace| - 1].Render? || trace[|trace| - 1].ReadClock?;
    forall i | IsFirstRender(trace, i)
      ensures i == e.rendered
    {
      OneFirstRender(trace, i, e.rendered);
    }
  }

  // ---- Before the router is changed -----------------------------------------

  const PREFIX := "mikrodash-cfg-"

  predicate IsHex(c: char) {
    '0' <= c <= '9' || 'a' <= c <= 'f'
  }

  /** The names reverts are given: the prefix and sixteen hexadecimal digits. */
  predicate IsOurScheduler(name: string) {
    && |name| == |PREFIX| + 16 && name[..|PREFIX|] == PREFIX
    && forall i :: |PREFIX| <= i < |name| ==> IsHex(name[i])
  }

  function HexDigit(n: int): char
    requires 0 <= n < 16
  {
    if n < 10 then '0' + n as char else 'a' + (n - 10) as char
  }

  ghost predicate AreBytes(bytes: seq<int>) {
    forall i :: 0 <= i < |bytes| ==> 0 <= bytes[i] < 256
  }

  /** Bytes in hexadecimal, two digits each. */
  ghost function Hex(bytes: seq<int>): string
    requires AreBytes(bytes)
  {
    if bytes == [] then ""
    else Hex(bytes[..|bytes| - 1]) + [HexDigit(bytes[|bytes| - 1] / 16), HexDigit(bytes[|bytes| - 1] % 16)]
  }

  lemma {:induction false} HexIsHex(bytes: seq<int>)
    requires AreBytes(bytes)
    ensures |Hex(bytes)| == 2 * |bytes| && forall i :: 0 <= i < |Hex(bytes)| ==> IsHex(Hex(bytes)[i])
  {
    if bytes != [] {
      HexIsHex(bytes[..|bytes| - 1]);
    }
  }

  lemma HexValue(c: char) returns (n: int)
    requires IsHex(c)
    ensures 0 <= n < 16 && HexDigit(n) == c
  {
    n := if c <= '9' then c as int - '0' as int else c as int - 'a' as int + 10;
  }

  lemma {:induction false} UnHex(s: string, count: nat) returns (bytes: seq<int>)
    requires |s| == 2 * count && forall i :: 0 <= i < |s| ==> IsHex(s[i])
    ensures AreBytes(bytes) && |bytes| == count && Hex(bytes) == s
    decreases count
  {
    bytes := [];
    if count > 0 {
      var front := UnHex(s[..|s| - 2], count - 1);
      var high := HexValue(s[|s| - 2]);
      var low := HexValue(s[|s| - 1]);
      bytes := front + [high * 16 + low];
      assert bytes[..|bytes| - 1] == front;
      assert s == s[..|s| - 2] + [s[|s| - 2], s[|s| - 1]];
    }
  }

  /** A scheduler is taken for ours exactly when its name is one that can be minted: the prefix and eight bytes. */
  lemma OursAreMinted(name: string)
    ensures IsOurScheduler(name) <==> exists bytes :: AreBytes(bytes) && |bytes| == 8 && name == "mikrodash-cfg-" + Hex(bytes)
  {
    if IsOurScheduler(name) {
      var bytes := UnHex(name[|PREFIX|..], 8);
      assert name == PREFIX + name[|PREFIX|..];
    }
    if exists bytes :: AreBytes(bytes) && |bytes| == 8 && name == "mikrodash-cfg-" + Hex(bytes) {
      var bytes :| AreBytes(bytes) && |bytes| == 8 && name == "mikrodash-cfg-" + Hex(bytes);
      HexIsHex(bytes);
    }
  }

  /** The schedulers of a listing that are ours, in its order. */
  function Ours(entries: seq<Entry>): seq<string> {
    if entries == [] then []
    else
      var last := entries[|entries| - 1];
      Ours(entries[..|entries| - 1]) + if IsOurScheduler(last.name) then [last.id] else []
  }

  /** Exactly these schedulers, one after the other. */
  ghost predicate Removes(trace: seq<Event>, from: nat, ids: seq<string>) {
    && |trace| == from + |ids|
    && (forall i :: from <= i < |trace| ==> trace[i].RemoveScheduler? && trace[i].id == ids[i - from])
  }

  /** Files first, then every scheduler the router lists under a name of ours. */
  ghost predicate IsSweep(trace: seq<Event>, from: nat) {
    && from + 1 < |trace| && trace[from].SweepFiles? && trace[from + 1].ListSchedulers?
    && var entries := trace[from + 1].entries;
       Removes(trace, from + 2, if entries.None? then [] else Ours(entries.value))
  }

  method Sweep(env: Env)
    modifies env
    ensures old(env.trace) < env.trace && IsSweep(env.trace, |old(env.trace)|)
    ensures env.clock >= old(env.clock)
  {
    env.Exchange(SweepFiles);
    var entries: Option<seq<Entry>> := Answer();
    env.Exchange(ListSchedulers(entries));
    if entries.None? {
      return;
    }
    for j := 0 to |entries.value|
      invariant old(env.trace) < env.trace && Removes(env.trace, |old(env.trace)| + 2, Ours(entries.value[..j]))
      invariant env.trace[|old(env.trace)|] == SweepFiles && env.trace[|old(env.trace)| + 1] == ListSchedulers(entries)
      invariant env.clock >= old(env.clock)
    {
      assert entries.value[..j + 1][..j] == entries.value[..j];
      if IsOurScheduler(entries.value[j].name) {
        var ok: bool := Answer();
        env.Exchange(RemoveScheduler(entries.value[j].id, ok));
      }
    }
    assert entries.value[..|entries.value|] == entries.value;
  }

  predicate IsOfSweep(e: Event) {
    e.SweepFiles? || e.ListSchedulers? || e.RemoveScheduler?
  }

  /** A sweep, as the rest of a run sees it. */
  method TidyUp(env: Env)
    modifies env
    ensures old(env.trace) < env.trace && env.clock >= old(env.clock)
    ensures IsSweep(env.trace, |old(env.trace)|)
    ensures forall i :: |old(env.trace)| <= i < |env.trace| ==> IsOfSweep(env.trace[i])
    ensures forall i :: |old(env.trace)| < i < |env.trace| ==> !env.trace[i].SweepFiles?
  {
    Sweep(env);
  }

  /** Who the router is, and whether what would be sent to it is what was approved. */
  method Check(env: Env, hash: string -> string, a: Additions)
    returns (code: string, r: Rendering, ghost identified: nat, ghost rendered: nat)
    requires NoRender(env.trace, |env.trace|)
    modifies env
    ensures code != "" ==> CheckRefuses(hash, a, env.trace, code)
    ensures old(env.trace) <= env.trace && HarmlessFrom(env.trace, |old(env.trace)|)
    ensures forall i :: |old(env.trace)| <= i < |env.trace| ==> !env.trace[i].AddScheduler?
    ensures code == "" ==>
              && |old(env.trace)| <= identified < rendered < |env.trace|
              && env.trace[identified].ReadIdentity? && env.trace[identified].identity.Some?
              && IsPlanned(env.trace[identified].identity.value, a.planned)
              && IsFirstRender(env.trace, rendered)
              && env.trace[rendered] == Render(Some(r)) && IsApproved(hash, r, a)
  {
    identified, rendered := |env.trace|, |env.trace| + 1;
    r := Rendering("", []);
    var id: Option<Identity> := Answer();
    env.Exchange(ReadIdentity(id));
    if id.None? {
      return "unreachable", r, identified, rendered;
    }
    if !SameRouter(id.value, a.planned) {
      return "identity-changed", r, identified, rendered;
    }
    var prep: Option<Rendering> := Answer();
    env.Exchange(Render(prep));
    if prep.None? {
      return "prepare", r, identified, rendered;
    }
    r := prep.value;
    code := JudgeRendering(hash, r, a);
  }

  /** One file on the router, refusing what is too long for one. */
  method Upload(env: Env, file: string, body: string) returns (ok: bool, ghost at: nat)
    modifies env
    ensures old(env.trace) <= env.trace && HarmlessFrom(env.trace, |old(env.trace)|)
    ensures forall i :: |old(env.trace)| <= i < |env.trace| ==> !env.trace[i].AddScheduler?
    ensures |body| > MAX_PART ==> !ok && env.trace == old(env.trace)
    ensures !ok && |body| <= MAX_PART ==> old(env.trace) < env.trace && UploadRefused(env.trace[|env.trace| - 1])
    ensures ok ==> |old(env.trace)| <= at && IsUploaded(env.trace, file, body, at)
    ensures ok ==> forall k :: |old(env.trace)| <= k < |env.trace| && env.trace[k].SetFile? ==> k == at + 1
  {
    at := |env.trace| + 1;
    if |body| > MAX_PART {
      return false, at;
    }
    ok := Answer();
    env.Exchange(AddFile(file, ok));
    if !ok {
      return false, at;
    }
    var found: Option<string> := Answer();
    env.Exchange(FindFile(file, found));
    if found.None? {
      return false, at;
    }
    ok := Answer();
    env.Exchange(SetFile(found.value, body, ok));
  }

  /** A file name not used before in this run; minting one may fail. */
  method NewFileName(env: Env, used: seq<string>) returns (name: Option<string>)
    modifies env
    ensures env.trace == old(env.trace) + [MintFile(name)]
    ensures name.Some? ==> name.value !in used
  {
    name := Answer();
    if name.Some? && name.value in used {
      name := None;
    }
    env.Exchange(MintFile(name));
  }

  method UploadAll(env: Env, parts: seq<string>) returns (ok: bool, files: seq<string>, ghost uploads: seq<nat>)
    requires Fit(parts, MAX_PART)
    modifies env
    ensures old(env.trace) <= env.trace && HarmlessFrom(env.trace, |old(env.trace)|)
    ensures forall i :: |old(env.trace)| <= i < |env.trace| ==> !env.trace[i].AddScheduler?
    ensures ok ==> AllUploaded(env.trace, files, parts, uploads, |old(env.trace)|, |env.trace|)
    ensures ok ==> SetOnce(env.trace, files, uploads, |old(env.trace)|, |env.trace|)
    ensures !ok ==> old(env.trace) < env.trace && UploadRefused(env.trace[|env.trace| - 1])
  {
    files, uploads := [], [];
    for j := 0 to |parts|
      invariant old(env.trace) <= env.trace && HarmlessFrom(env.trace, |old(env.trace)|)
      invariant forall i :: |old(env.trace)| <= i < |env.trace| ==> !env.trace[i].AddScheduler?
      invariant |files| == j && AllUploaded(env.trace, files, parts[..j], uploads, |old(env.trace)|, |env.trace|)
      invariant SetOnce(env.trace, files, uploads, |old(env.trace)|, |env.trace|)
    {
      ghost var before := env.trace;
      var name := NewFileName(env, files);
      if name.None? {
        return false, files, uploads;
      }
      var sent;
      ghost var at;
      sent, at := Upload(env, name.value, parts[j]);
      if !sent {
        return false, files, uploads;
      }
      UploadsStay(before, env.trace, files, parts[..j], uploads, |old(env.trace)|, |before|);
      SetOnceMore(before, env.trace, files, uploads, |old(env.trace)|, name.value, at);
      files, uploads := files + [name.value], uploads + [at];
    }
    assert parts[..|parts|] == parts;
    ok := true;
  }

  lemma SetOnceMore(before: seq<Event>, trace: seq<Event>, files: seq<string>, uploads: seq<nat>, from: nat,
                    name: string, at: nat)
    requires before <= trace && SetOnce(before, files, uploads, from, |before|) && name !in files
    requires forall k :: |before| <= k < |trace| && trace[k].SetFile? ==> k == at + 1
    ensures SetOnce(trace, files + [name], uploads + [at], from, |trace|)
  {
    var more := uploads + [at];
    assert more[|uploads|] == at;
    forall k | from <= k < |trace| && trace[k].SetFile?
      ensures k > 0 && k - 1 in more
    {
      if k < |before| {
        assert before[k] == trace[k];
        assert k - 1 in uploads;
      }
    }
  }

  lemma SetOnceStays(trace: seq<Event>, more: seq<Event>, files: seq<string>, uploads: seq<nat>, from: nat, to: nat)
    requires trace <= more && SetOnce(trace, files, uploads, from, to)
    ensures SetOnce(more, files, uploads, from, to)
  {
    assert forall k :: 0 <= k < |trace| ==> more[k] == trace[k];
  }

  predicate IsFailedDryRun(e: Event, file: string) {
    e.Import? && e.file == file && e.dryRun && !e.reply.ok
  }

  /** Every part parsed by the router without running it, or the first that was not. */
  method DryRunAll(env: Env, files: seq<string>) returns (failed: nat, ghost dryRuns: seq<nat>)
    modifies env
    ensures old(env.trace) <= env.trace && HarmlessFrom(env.trace, |old(env.trace)|)
    ensures forall i :: |old(env.trace)| <= i < |env.trace| ==> !env.trace[i].AddScheduler? && !env.trace[i].SetFile?
    ensures failed <= |files|
    ensures failed == 0 ==> AllParsed(env.trace, files, dryRuns, |old(env.trace)|, |env.trace|)
    ensures failed > 0 ==>
              && |env.trace| == |old(env.trace)| + failed + 1
              && AllParsed(env.trace, files[..failed - 1], dryRuns, |old(env.trace)|, |env.trace|)
              && IsFailedDryRun(env.trace[|env.trace| - 2], files[failed - 1]) && DryRunRefused(env.trace)
  {
    dryRuns := [];
    for j := 0 to |files|
      invariant old(env.trace) <= env.trace && |env.trace| == |old(env.trace)| + j
      invariant forall i :: |old(env.trace)| <= i < |env.trace| ==>
                  IsHarmless(env.trace[i]) && !env.trace[i].AddScheduler? && !env.trace[i].SetFile?
      invariant AllParsed(env.trace, files[..j], dryRuns, |old(env.trace)|, |env.trace|)
    {
      var reply: ImportReply := Answer();
      env.Exchange(Import(files[j], true, reply));
      if !reply.ok {
        env.Exchange(Report(files[j]));
        return j + 1, dryRuns;
      }
      dryRuns := dryRuns + [|env.trace| - 1];
    }
    assert files[..|files|] == files;
    failed := 0;
  }
}
