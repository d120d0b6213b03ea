/**
 A router as a deploy sees it: it may answer anything, or not at all. Every
 exchange is kept on a trace together with its answer, and time only goes on.
 */
module Router {
  import opened Wrappers

  /** What a router says it is; `uptime` is not part of being the same router. */
  datatype Identity = Identity(board: string, serial: string, osVersion: string, uptime: int)

  predicate SameRouter(a: Identity, b: Identity) {
    a.board == b.board && a.serial == b.serial && a.osVersion == b.osVersion
  }

  datatype Level = Refuse | Ack | Note

  datatype Finding = Finding(code: string, line: int, level: Level)

  /** What the template renders to on this router now, and what is wrong with it. */
  datatype Rendering = Rendering(text: string, findings: seq<Finding>)

  /** What the router holds after an import, as far as its reply tells. */
  datatype Holds = HoldsAll | HoldsNone | HoldsPart | HoldsUnknown

  datatype ImportReply = ImportReply(ok: bool, holds: Holds)

  /** A scheduler row: its id, and whether it has run. */
  datatype Row = Row(id: string, hasRun: bool)

  /** A scheduler as a listing of all of them shows it. */
  datatype Entry = Entry(id: string, name: string)

  datatype Event =
    | SweepFiles
    | ListSchedulers(entries: Option<seq<Entry>>)
    | RemoveScheduler(id: string, ok: bool)
    | ReadIdentity(identity: Option<Identity>)
    | Render(rendering: Option<Rendering>)
    | TakeBackup(backup: Option<int>)
    | MintFile(minted: Option<string>)
    | AddFile(file: string, ok: bool)
    | FindFile(file: string, found: Option<string>)
    | SetFile(id: string, body: string, ok: bool)
    | Import(file: string, dryRun: bool, reply: ImportReply)
    | MintRevert(minted: Option<string>)
    | SaveRevert(name: string, ok: bool)
    | AwaitRevert(name: string, ok: bool)
    | AddScheduler(name: string, ok: bool)
    | FindScheduler(name: string, rows: Option<seq<Row>>)
    | Login(identity: Option<Identity>)
    | ReadClock(now: int)
    | Sleep(ms: nat)
    | Report(file: string)
    | Export(ok: bool)

  /**
   The wire to one router. An exchange is a command together with the answer
   the router chose for it, which the caller leaves open.
   */
  class Env {
    ghost var trace: seq<Event>
    var clock: int

    constructor (clock: int)
      ensures trace == [] && this.clock == clock
    {
      trace, this.clock := [], clock;
    }

    method Exchange(ghost e: Event)
      modifies this
      ensures trace == old(trace) + [e] && clock >= old(clock)
    {
      trace := trace + [e];
      Pass();
    }

    method Now() returns (now: int)
      modifies this
      ensures trace == old(trace) + [ReadClock(now)] && clock == now >= old(clock)
    {
      Pass();
      now := clock;
      trace := trace + [ReadClock(now)];
    }

    /** Sleeping takes at least as long as was asked. */
    method Wait(ms: nat)
      modifies this
      ensures trace == old(trace) + [Sleep(ms)] && clock >= old(clock) + ms
    {
      clock := clock + ms;
      trace := trace + [Sleep(ms)];
      Pass();
    }

    /** Some time goes by. */
    method Pass()
      modifies this`clock
      ensures clock >= old(clock)
    {
      var later: int :| later >= clock;
      clock := later;
    }
  }

  /** An answer nobody here controls. */
  method Answer<T(0)>() returns (answer: T)
  {
    answer :| true;
  }
}
