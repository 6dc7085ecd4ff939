/**
  Properties that relate the write path to the read path: what the admin
  page shows after answers are recorded.
 */
module Scenarios {
  import Text
  import opened Store
  import Recorder
  import opened Reader

  /** A recorded answer is the first row of the local fallback, ahead of the
      older entries in newest-first order. The status is a success unless an
      older entry's choice cannot be rendered. */
  lemma SavedAnswerShowsFirst(
    choice: string, local: LocalSlot, db: Db, env: Recorder.SaveEnv, remote: RemoteRead)
    requires Recorder.LocalWorks(local, env)
    requires !CloudHasRows(remote)
    ensures LoadResponses(remote, Recorder.SaveAnswer(choice, local, db, env).local).rows
              == [EntryRow(Entry(Str(choice), env.now))] + LocalRows(ParseLog(local.raw)).rows
    ensures LoadResponses(remote, Recorder.SaveAnswer(choice, local, db, env).local).status
              == if AllEntriesRender(ParseLog(local.raw)) then DeviceLoaded else CouldNotRead
  {
  }

  /** The document a successful save adds is the collection's new last
      document, and its admin row says mobile exactly when the saving
      browser's user agent names one of the mobile tokens. */
  lemma SavedDocShowsDevice(choice: string, local: LocalSlot, docs: seq<Doc>, env: Recorder.SaveEnv)
    requires env.add.AddSucceeds?
    ensures Recorder.SaveAnswer(choice, local, Db(docs), env).db.docs == docs + [Recorder.NewDoc(choice, env)]
    ensures var row := DocRow(Recorder.NewDoc(choice, env));
            (row.who == MobileUser <==>
               exists k :: 0 <= k < |MobileTokens| && Text.Occurs(env.userAgent, MobileTokens[k])) &&
            row.choice == ChoiceText(choice) &&
            row.time == ServerTime(env.serverTime)
  {
  }

  /** Local log [Reject at t1, Accept at t2] with no remote store: the admin
      table shows the accept at t2 first, then the reject at t1. */
  lemma LocalScenario(t1: string, t2: string)
    requires t1 != "" && t2 != ""
    ensures LoadResponses(Unconfigured, Stored(Arr([Entry(Str("Reject"), t1), Entry(Str("Accept"), t2)]))).rows
              == [Row(DeviceOwner, "Accept", ChoiceAccept, ClientTime(t2)),
                  Row(DeviceOwner, "Reject", ChoiceReject, ClientTime(t1))]
  {
    ClassOfIsCaseInsensitiveAccept("Accept");
  }

  /** Two remote documents, d1 saved before d2, returned newest first by the
      query: whatever the local log holds, the table shows d2 then d1 and
      nothing else. */
  lemma RemoteScenario(d1: Doc, d2: Doc, local: LocalSlot)
    requires d1.time.Stamped? && d2.time.Stamped? && d1.time.ms < d2.time.ms
    requires Renders(d1.choice) && Renders(d2.choice)
    ensures LoadResponses(Snapshot([d2, d1]), local).rows == [DocRow(d2), DocRow(d1)]
    ensures LoadResponses(Snapshot([d2, d1]), local).rows[0].time.ms
              > LoadResponses(Snapshot([d2, d1]), local).rows[1].time.ms
    ensures LoadResponses(Snapshot([d2, d1]), local).status == CloudLoaded(2)
    ensures !LoadResponses(Snapshot([d2, d1]), local).localRead
  {
  }

  /** A snapshot [d, bad] whose second choice cannot be rendered, over a local
      log [e]: the table shows d's row and then e's row, and reports the
      device's answers as loaded. */
  lemma CloudAndLocalRowsMix(d: Doc, bad: Doc, e: Entry)
    requires Renders(d.choice) && bad.choice == TruthyNonString && Renders(e.choice)
    ensures LoadResponses(Snapshot([d, bad]), Stored(Arr([e]))).rows == [DocRow(d), EntryRow(e)]
    ensures LoadResponses(Snapshot([d, bad]), Stored(Arr([e]))).status == DeviceLoaded
    ensures LoadResponses(Snapshot([d, bad]), Stored(Arr([e]))).localRead
  {
    assert !Renders([d, bad][1].choice);
    assert AllEntriesRender([e]);
  }

  /** A local log [bad, e] whose older choice cannot be rendered: e's row
      stays in the table, yet the status is "could not read" and the empty
      state is shown. */
  lemma BrokenEntryKeepsNewerRows(bad: Entry, e: Entry)
    requires bad.choice == TruthyNonString && Renders(e.choice)
    ensures LoadResponses(Unconfigured, Stored(Arr([bad, e]))).rows == [EntryRow(e)]
    ensures LoadResponses(Unconfigured, Stored(Arr([bad, e]))).status == CouldNotRead
    ensures LoadResponses(Unconfigured, Stored(Arr([bad, e]))).emptyShown
  {
    assert [bad, e][..1] == [bad];
    assert LocalRows([bad]) == Rendered([], true);
  }

  /** Malformed text and an absent key both give an empty table, but the
      code reports them differently. */
  lemma MalformedIsNotMissing(remote: RemoteRead)
    requires !CloudHasRows(remote)
    ensures LoadResponses(remote, Stored(Malformed)).rows == []
    ensures LoadResponses(remote, Stored(Missing)).rows == []
    ensures LoadResponses(remote, Stored(Malformed)).status == CouldNotRead
    ensures LoadResponses(remote, Stored(Missing)).status == NoAnswerYet
  {
  }
}
