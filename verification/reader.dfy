/**
  The admin page's read path (`loadResponses`): show the remote collection
  when it has documents, otherwise fall back to this device's local log,
  newest first. The two sources are combined only when a stored choice
  makes the remote render loop throw part-way.
 */
module Reader {
  import Text
  import opened Store

  /** The first column of a row: the remote document's device, or the fixed
      owner label used for every local entry. */
  datatype Who = MobileUser | DesktopUser | DeviceOwner

  /** The CSS class a row's choice cell gets. */
  datatype ChoiceClass = ChoiceAccept | ChoiceReject

  /** The time column: a dash, or a time still to be formatted for display. */
  datatype TimeCell = Dash | ServerTime(ms: nat) | ClientTime(iso: string)

  /** One table row (the message column is always the same dash and is not kept). */
  datatype Row = Row(who: Who, choice: string, cls: ChoiceClass, time: TimeCell)

  /** `x.choice || "-"`. */
  function ChoiceText(choice: string): string
  {
    if choice == "" then "-" else choice
  }

  /** `(x.choice || "").toLowerCase() === "accept"` picks the accept class. */
  function ClassOf(choice: string): ChoiceClass
  {
    if Text.ToLower(choice) == "accept" then ChoiceAccept else ChoiceReject
  }

  /** The accept class is given exactly to a case-insensitive "accept";
      the two choices the page itself saves get the classes they name. */
  lemma ClassOfIsCaseInsensitiveAccept(choice: string)
    ensures ClassOf(choice) == ChoiceAccept <==>
              |choice| == 6 &&
              forall i :: 0 <= i < 6 ==> choice[i] == "accept"[i] || choice[i] == "ACCEPT"[i]
    ensures ClassOf("Accept") == ChoiceAccept
    ensures ClassOf("Reject") == ChoiceReject
  {
    Text.LowerIsAcceptIff(choice);
    Text.LowerIsAcceptIff("Accept");
    Text.LowerIsAcceptIff("Reject");
    assert "Reject"[0] != "accept"[0] && "Reject"[0] != "ACCEPT"[0];
  }

  /** The choice cell renders unless the stored value is a truthy
      non-string, on which `toLowerCase` throws. */
  predicate Renders(v: ChoiceValue)
  {
    !v.TruthyNonString?
  }

  /** The choice cell's text `x.choice || "-"` and its class from
      `(x.choice || "").toLowerCase()`. */
  function ChoiceCell(v: ChoiceValue): (cell: (string, ChoiceClass))
    requires Renders(v)
    // a non-empty string is shown as it is and classed by its lower-case form
    ensures v.Str? && v.s != "" ==> cell == (v.s, ClassOf(v.s))
    // every falsy value is shown as a dash in the reject class
    ensures !(v.Str? && v.s != "") ==> cell == ("-", ChoiceReject)
  {
    match v
    case Str(s) => (ChoiceText(s), ClassOf(s))
    case Falsy => ("-", ClassOf(""))
  }

  /** A remote document's row. */
  function DocRow(d: Doc): (r: Row)
    requires Renders(d.choice)
    ensures r.who == MobileUser <==> d.device == "Mobile"
    ensures r.who != DeviceOwner
    ensures (r.choice, r.cls) == ChoiceCell(d.choice)
    ensures r.time == Dash <==> d.time.NoTime?
    ensures d.time.Stamped? ==> r.time == ServerTime(d.time.ms)
  {
    var (text, cls) := ChoiceCell(d.choice);
    Row(if d.device == "Mobile" then MobileUser else DesktopUser,
        text,
        cls,
        match d.time
        case NoTime => Dash
        case Stamped(ms) => ServerTime(ms))
  }

  /** A local entry's row. */
  function EntryRow(e: Entry): (r: Row)
    requires Renders(e.choice)
    ensures r.who == DeviceOwner
    ensures (r.choice, r.cls) == ChoiceCell(e.choice)
    ensures r.time == Dash <==> e.time == ""
    ensures e.time != "" ==> r.time == ClientTime(e.time)
  {
    var (text, cls) := ChoiceCell(e.choice);
    Row(DeviceOwner, text, cls, if e.time == "" then Dash else ClientTime(e.time))
  }

  /** What a render loop leaves: the rows it appended, and whether it threw. */
  datatype Rendered = Rendered(rows: seq<Row>, threw: bool)

  ghost predicate AllDocsRender(docs: seq<Doc>)
  {
    forall i :: 0 <= i < |docs| ==> Renders(docs[i].choice)
  }

  ghost predicate AllEntriesRender(list: seq<Entry>)
  {
    forall i :: 0 <= i < |list| ==> Renders(list[i].choice)
  }

  /** `snapshot.forEach(...)`: one row per document, in snapshot order, until
      a document's choice makes the loop throw; rows appended so far stay. */
  function RemoteRows(docs: seq<Doc>): (r: Rendered)
    ensures r.threw <==> !AllDocsRender(docs)
    ensures |r.rows| <= |docs|
    ensures !r.threw ==> |r.rows| == |docs|
    ensures r.threw ==> |r.rows| < |docs| && !Renders(docs[|r.rows|].choice)
    ensures forall i :: 0 <= i < |r.rows| ==> Renders(docs[i].choice) && r.rows[i] == DocRow(docs[i])
  {
    if docs == [] then Rendered([], false)
    else if !Renders(docs[0].choice) then Rendered([], true)
    else
      var rest := RemoteRows(docs[1..]);
      assert AllDocsRender(docs) <==> AllDocsRender(docs[1..]) by {
        if AllDocsRender(docs[1..]) {
          forall i | 0 < i < |docs| ensures Renders(docs[i].choice) {
            assert docs[i] == docs[1..][i - 1];
          }
        }
      }
      Rendered([DocRow(docs[0])] + rest.rows, rest.threw)
  }

  /** The `i`-th entry of `list` counted from its end: what a reversed copy
      holds at index `i`. */
  function FromEnd<T>(list: seq<T>, i: nat): T
    requires i < |list|
  {
    list[|list| - 1 - i]
  }

  /** `list.slice().reverse().forEach(...)`: one row per entry, last saved
      first, until an entry's choice makes the loop throw; rows appended so
      far stay. */
  function LocalRows(list: seq<Entry>): (r: Rendered)
    ensures r.threw <==> !AllEntriesRender(list)
    ensures |r.rows| <= |list|
    ensures !r.threw ==> |r.rows| == |list|
    ensures r.threw ==> |r.rows| < |list| && !Renders(FromEnd(list, |r.rows|).choice)
    ensures forall i :: 0 <= i < |r.rows| ==>
              Renders(FromEnd(list, i).choice) && r.rows[i] == EntryRow(FromEnd(list, i))
  {
    if list == [] then Rendered([], false)
    else
      var last := list[|list| - 1];
      if !Renders(last.choice) then Rendered([], true)
      else
        var init := list[..|list| - 1];
        var rest := LocalRows(init);
        assert forall i :: 0 < i <= |rest.rows| ==> FromEnd(init, i - 1) == FromEnd(list, i);
        Rendered([EntryRow(last)] + rest.rows, rest.threw)
  }

  /** What the remote query does: no `db`, the query throws, or it returns a
      snapshot (already ordered by `time`, newest first). */
  datatype RemoteRead = Unconfigured | Throws | Snapshot(docs: seq<Doc>)

  /** The final admin status, by which message the code leaves showing. */
  datatype Status =
    | CloudLoaded(count: nat)   // "Loaded N response(s) from cloud"
    | DeviceLoaded              // "Loaded all answers from this device"
    | NoAnswerYet               // key missing or empty: "No saved answer found"
    | NoAnswersYet              // not an array, or no items: "No saved answers found"
    | CouldNotRead              // unparsable, storage threw, or rendering threw: "Could not read saved answer"

  datatype Severity = Success | Error

  function SeverityOf(s: Status): Severity
  {
    if s.CloudLoaded? || s.DeviceLoaded? then Success else Error
  }

  /** The outcome of one load: rows shown, final status, whether the empty
      state is displayed, whether the remote store was queried and whether
      the local log was read. */
  datatype View = View(rows: seq<Row>, status: Status, emptyShown: bool, queried: bool, localRead: bool)

  predicate CloudHasRows(remote: RemoteRead)
  {
    remote.Snapshot? && |remote.docs| > 0
  }

  /** The remote step shows the snapshot and returns: it has documents, and
      every one of them renders. */
  ghost predicate CloudShown(remote: RemoteRead)
  {
    CloudHasRows(remote) && AllDocsRender(remote.docs)
  }

  /** No stored choice on either side makes a render loop throw. */
  ghost predicate RendersCleanly(remote: RemoteRead, local: LocalSlot)
  {
    && (remote.Snapshot? ==> AllDocsRender(remote.docs))
    && (local.Stored? && local.raw.Arr? ==> AllEntriesRender(local.raw.entries))
  }

  /** The rows the remote loop appended (none when it did not run). */
  function CloudPart(remote: RemoteRead): seq<Row>
  {
    if CloudHasRows(remote) then RemoteRows(remote.docs).rows else []
  }

  /** The rows the local loop appended (none when it did not run). */
  function LocalPart(local: LocalSlot): seq<Row>
  {
    if local.Stored? && local.raw.Arr? then LocalRows(local.raw.entries).rows else []
  }

  /** The local fallback, after the remote step was skipped, came back
      empty, or threw. */
  function LocalFallback(local: LocalSlot, queried: bool): (v: View)
    ensures v.queried == queried && v.localRead
    ensures v.rows == LocalPart(local)
    ensures v.status == CouldNotRead <==>
              local == Unreadable || local == Stored(Malformed) ||
              (local.Stored? && local.raw.Arr? && !AllEntriesRender(local.raw.entries))
    ensures v.status == NoAnswerYet <==> local == Stored(Missing)
    ensures v.status == NoAnswersYet <==> local == Stored(NonArray) || local == Stored(Arr([]))
    ensures v.status == DeviceLoaded <==>
              local.Stored? && local.raw.Arr? && |local.raw.entries| > 0 &&
              AllEntriesRender(local.raw.entries)
    ensures !v.status.CloudLoaded?
    ensures v.emptyShown <==> SeverityOf(v.status) == Error
    ensures SeverityOf(v.status) == Success ==> |v.rows| > 0
    ensures (local.Stored? && local.raw.Arr? ==> AllEntriesRender(local.raw.entries)) ==>
              (v.emptyShown <==> |v.rows| == 0)
  {
    match local
    case Unreadable => View([], CouldNotRead, true, queried, true)
    case Stored(Missing) => View([], NoAnswerYet, true, queried, true)
    case Stored(Malformed) => View([], CouldNotRead, true, queried, true)
    case Stored(NonArray) => View([], NoAnswersYet, true, queried, true)
    case Stored(Arr(list)) =>
      if |list| == 0 then View([], NoAnswersYet, true, queried, true)
      else
        var r := LocalRows(list);
        if r.threw then View(r.rows, CouldNotRead, true, queried, true)
        else View(r.rows, DeviceLoaded, false, queried, true)
  }

  /** `loadResponses()`. The `try` around the remote step also catches a
      throw from its render loop: the rows appended so far stay, and the
      local fallback appends its rows after them. */
  function LoadResponses(remote: RemoteRead, local: LocalSlot): (v: View)
    // the remote store is queried exactly when it is configured
    ensures v.queried <==> !remote.Unconfigured?
    // the local log is read exactly when the remote step did not finish with rows
    ensures v.localRead <==> !CloudShown(remote)
    // remote rows: exactly the snapshot, in order
    ensures CloudShown(remote) ==>
              v.status == CloudLoaded(|remote.docs|) && |v.rows| == |remote.docs| &&
              forall i :: 0 <= i < |v.rows| ==> v.rows[i] == DocRow(remote.docs[i])
    // otherwise: what the remote loop appended before it threw, then what the local loop appended
    ensures !CloudShown(remote) ==> v.rows == CloudPart(remote) + LocalPart(local)
    // the local phase decides the status
    ensures !CloudShown(remote) ==>
              (v.status == CouldNotRead <==>
                 local == Unreadable || local == Stored(Malformed) ||
                 (local.Stored? && local.raw.Arr? && !AllEntriesRender(local.raw.entries)))
    ensures !CloudShown(remote) ==> (v.status == NoAnswerYet <==> local == Stored(Missing))
    ensures !CloudShown(remote) ==>
              (v.status == NoAnswersYet <==> local == Stored(NonArray) || local == Stored(Arr([])))
    ensures !CloudShown(remote) ==>
              (v.status == DeviceLoaded <==>
                 local.Stored? && local.raw.Arr? && |local.raw.entries| > 0 &&
                 AllEntriesRender(local.raw.entries))
    // the empty state goes with an error status, a success status with a non-empty table
    ensures v.emptyShown <==> SeverityOf(v.status) == Error
    ensures SeverityOf(v.status) == Success ==> |v.rows| > 0
    // when nothing throws while rendering, the empty state shows exactly when the table is empty
    ensures RendersCleanly(remote, local) ==> (v.emptyShown <==> |v.rows| == 0)
  {
    if CloudHasRows(remote) then
      var cloud := RemoteRows(remote.docs);
      if !cloud.threw then View(cloud.rows, CloudLoaded(|remote.docs|), false, true, false)
      else
        var fallback := LocalFallback(local, true);
        View(cloud.rows + fallback.rows, fallback.status, fallback.emptyShown, true, true)
    else
      LocalFallback(local, !remote.Unconfigured?)
  }

  /** An empty snapshot, a thrown query and a missing `db` all lead to the
      same rows and the same final status; only whether a query was made differs. */
  lemma FallbackIgnoresWhyRemoteGaveNothing(local: LocalSlot)
    ensures LoadResponses(Throws, local).rows == LoadResponses(Unconfigured, local).rows
    ensures LoadResponses(Snapshot([]), local).rows == LoadResponses(Unconfigured, local).rows
    ensures LoadResponses(Throws, local).status == LoadResponses(Unconfigured, local).status
    ensures LoadResponses(Snapshot([]), local).status == LoadResponses(Unconfigured, local).status
  {
  }

  /** A snapshot whose document `k` is the first one that cannot be rendered
      gives a table that mixes the two sources: the rows of documents `0..k-1`,
      then exactly what a load without a remote store would show, with that
      load's status and empty state. */
  lemma BrokenDocMergesSources(docs: seq<Doc>, k: nat, local: LocalSlot)
    requires k < |docs| && !Renders(docs[k].choice)
    requires forall j :: 0 <= j < k ==> Renders(docs[j].choice)
    ensures |LoadResponses(Snapshot(docs), local).rows| >= k
    ensures forall j :: 0 <= j < k ==> LoadResponses(Snapshot(docs), local).rows[j] == DocRow(docs[j])
    ensures LoadResponses(Snapshot(docs), local).rows[k..] == LoadResponses(Unconfigured, local).rows
    ensures LoadResponses(Snapshot(docs), local).status == LoadResponses(Unconfigured, local).status
    ensures LoadResponses(Snapshot(docs), local).emptyShown
              == LoadResponses(Unconfigured, local).emptyShown
  {
    var cloud := RemoteRows(docs);
    assert !AllDocsRender(docs) by { assert !Renders(docs[k].choice); }
    assert !Renders(docs[|cloud.rows|].choice);
    assert |cloud.rows| == k;
    var fallback := LocalFallback(local, true);
    assert LoadResponses(Snapshot(docs), local)
        == View(cloud.rows + fallback.rows, fallback.status, fallback.emptyShown, true, true);
    assert LoadResponses(Unconfigured, local) == LocalFallback(local, false);
  }

  /** If the query returns its documents newest first, the rows are newest first. */
  lemma CloudRowsNewestFirst(docs: seq<Doc>, local: LocalSlot)
    requires |docs| > 0
    requires forall i :: 0 <= i < |docs| ==> Renders(docs[i].choice) && docs[i].time.Stamped?
    requires forall i, j :: 0 <= i < j < |docs| ==> docs[i].time.ms >= docs[j].time.ms
    ensures forall i, j :: 0 <= i < j < |docs| ==>
              LoadResponses(Snapshot(docs), local).rows[i].time.ServerTime? &&
              LoadResponses(Snapshot(docs), local).rows[i].time.ms
                >= LoadResponses(Snapshot(docs), local).rows[j].time.ms
  {
    var rows := LoadResponses(Snapshot(docs), local).rows;
    forall i | 0 <= i < |docs|
      ensures rows[i].time == ServerTime(docs[i].time.ms)
    {
      assert rows[i] == DocRow(docs[i]);
    }
  }
}
