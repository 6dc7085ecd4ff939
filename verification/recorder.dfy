/**
  Recording one answer (`saveAnswer`): append `{choice, time}` to the local
  log, then try to add a document to the remote collection, and report
  whether the remote add went through.
 */
module Recorder {
  import opened Store

  /** Whether the remote `add` resolves or rejects. */
  datatype AddOutcome = AddSucceeds | AddThrows

  /** Everything a save takes from outside the page: the client clock, the
      browser's user-agent string, the time the server assigns, whether the
      local write throws (quota), and how the remote `add` ends. */
  datatype SaveEnv = SaveEnv(
    now: string,
    userAgent: string,
    serverTime: nat,
    writeThrows: bool,
    add: AddOutcome)

  /** The stores after a save, whether the remote `add` was issued at all,
      and the value `saveAnswer` returns. */
  datatype Saved = Saved(local: LocalSlot, db: Db, remoteCalled: bool, cloud: bool)

  /** The document a save submits to the remote collection. */
  function NewDoc(choice: string, env: SaveEnv): Doc
  {
    Doc(Str(choice), Stamped(env.serverTime), env.userAgent, DeviceLabel(env.userAgent))
  }

  /** Local storage takes the save: it can be read and the write does not throw. */
  predicate LocalWorks(slot: LocalSlot, env: SaveEnv)
  {
    slot.Stored? && !env.writeThrows
  }

  /** The local half: a read-parse-append-write that swallows storage errors. */
  function AppendLocal(choice: string, slot: LocalSlot, env: SaveEnv): (r: LocalSlot)
    ensures LocalWorks(slot, env) ==>
              r.Stored? && r.raw.Arr? && |r.raw.entries| == |ParseLog(slot.raw)| + 1
    ensures LocalWorks(slot, env) ==> r.raw.entries[..|ParseLog(slot.raw)|] == ParseLog(slot.raw)
    ensures LocalWorks(slot, env) ==>
              r.raw.entries[|r.raw.entries| - 1] == Entry(Str(choice), env.now)
    ensures !LocalWorks(slot, env) ==> r == slot
  {
    match slot
    case Unreadable => slot
    case Stored(raw) =>
      if env.writeThrows then slot
      else Stored(Arr(ParseLog(raw) + [Entry(Str(choice), env.now)]))
  }

  /** `saveAnswer(choice)`: the local append always comes first; with no
      `db` the call returns false without touching the remote store;
      otherwise it returns true exactly when the `add` resolves. */
  function SaveAnswer(choice: string, local: LocalSlot, db: Db, env: SaveEnv): (r: Saved)
    ensures r.local == AppendLocal(choice, local, env)
    ensures r.remoteCalled <==> db.Db?
    ensures r.cloud <==> db.Db? && env.add.AddSucceeds?
    ensures db.NoDb? ==> r.db.NoDb?
    ensures db.Db? ==> r.db.Db? && |r.db.docs| == |db.docs| + (if r.cloud then 1 else 0)
    ensures db.Db? ==> r.db.docs[..|db.docs|] == db.docs
    ensures r.cloud ==> r.db.docs[|r.db.docs| - 1] == NewDoc(choice, env)
  {
    var stored := AppendLocal(choice, local, env);
    match db
    case NoDb => Saved(stored, NoDb, false, false)
    case Db(docs) =>
      match env.add
      case AddSucceeds => Saved(stored, Db(docs + [NewDoc(choice, env)]), true, true)
      case AddThrows => Saved(stored, db, true, false)
  }

  /** Whatever the remote store does, a save with working local storage
      grows the local log by exactly one entry, at its end. */
  lemma SaveAppendsOneLocalEntry(choice: string, local: LocalSlot, db: Db, env: SaveEnv)
    requires LocalWorks(local, env)
    ensures SaveAnswer(choice, local, db, env).local
              == Stored(Arr(ParseLog(local.raw) + [Entry(Str(choice), env.now)]))
  {
  }

  /** A missing, empty, malformed or non-array prior value counts as the
      empty list: the log then holds just the new entry. */
  lemma UnusablePriorValueStartsFresh(choice: string, raw: LocalRaw, db: Db, env: SaveEnv)
    requires !env.writeThrows && !raw.Arr?
    ensures SaveAnswer(choice, Stored(raw), db, env).local == Stored(Arr([Entry(Str(choice), env.now)]))
  {
  }

  /** With no `db`, the result is false and the remote store is untouched,
      yet the local append has already happened. */
  lemma NoDbSavesLocallyOnly(choice: string, local: LocalSlot, env: SaveEnv)
    requires LocalWorks(local, env)
    ensures !SaveAnswer(choice, local, NoDb, env).cloud
    ensures !SaveAnswer(choice, local, NoDb, env).remoteCalled
    ensures |ParseLog(SaveAnswer(choice, local, NoDb, env).local.raw)| == |ParseLog(local.raw)| + 1
  {
  }

  /** The value returned says exactly whether the remote collection grew. */
  lemma ResultReportsRemoteGrowth(choice: string, local: LocalSlot, docs: seq<Doc>, env: SaveEnv)
    ensures SaveAnswer(choice, local, Db(docs), env).cloud <==>
              |SaveAnswer(choice, local, Db(docs), env).db.docs| == |docs| + 1
  {
  }
}
