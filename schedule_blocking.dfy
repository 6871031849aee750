/**
 * The schedule page: the weekly opening-hours table (one entry per weekday, Monday first)
 * and the list of blocked dates, with the "new block" form and the delete confirmation.
 *
 * Server replies are parameters: a load reply, a save reply carrying the stored record (or
 * the failure), and the random id the page makes up when the server returns none.
 */
module ScheduleBlocking {
  import opened Wrappers
  import opened Seqs
  import opened JsText

  /** One weekday's hours; `start`/`end` are the "HH:MM" texts of the time inputs. */
  datatype DayHour = DayHour(day: string, enabled: bool, start: string, end: string)

  datatype HourField = Start | End

  /** A blocked date; `None` stands for an absent or `null` field. */
  datatype BlockedDate = BlockedDate(
    id: Option<string>,
    date: string,
    startTime: Option<string>,
    endTime: Option<string>,
    reason: string,
    fullDay: bool,
    repeatYearly: bool)

  /** The "new block" form. */
  datatype BlockDraft = BlockDraft(
    date: string, startTime: string, endTime: string, reason: string, fullDay: bool, repeatYearly: bool)

  /** What one control of the form does to it. */
  datatype DraftEdit =
    | SetDate(date: string)
    | SetReason(reason: string)
    | ToggleFullDay
    | ToggleRepeatYearly
    | SetStartTime(startTime: string)
    | SetEndTime(endTime: string)

  /** The delete confirmation: open or not, and the id it would delete. */
  datatype DeleteModal = DeleteModal(isOpen: bool, id: Option<string>)

  /**
   * The answer to the load request: a failure (network, or weekly hours that cannot be read),
   * or the weekly entries found (none when absent) and the blocked dates. The blocked dates are
   * `None` when absent, not an array, or unparsable text: they are read after the weekly table
   * is installed, so that failure keeps the loaded table and only clears the blocks.
   */
  datatype LoadReply = LoadFailed | Loaded(businessHours: seq<DayHour>, blockedDates: Option<seq<BlockedDate>>)

  /** The answer to the request that stores a new block: a failure, or the returned record. */
  datatype SaveReply = SaveFailed | Saved(data: Option<BlockedDate>)

  /** `DAYS_OF_WEEK` keys, Monday to Sunday. */
  const WeekDays: seq<string> := ["monday", "tuesday", "wednesday", "thursday", "friday", "saturday", "sunday"]

  const EmptyDraft := BlockDraft("", "09:00", "10:00", "", false, false)

  const ClosedModal := DeleteModal(false, None)

  // ---------------------------------------------------------------- date display

  /**
   * `formatDateSafely`: "" stays "", a text with exactly three '-'-separated parts Y-M-D is
   * shown as "D/M/Y", and any other text is shown as it is.
   */
  function FormatDateSafely(date: string): (shown: string)
    ensures |shown| == |date|
    ensures date == "" ==> shown == ""
    ensures multiset(date)['-'] != 2 ==> shown == date
  {
    if date == "" then ""
    else
      var parts := Split(date, '-');
      SplitCount(date, '-');
      if |parts| == 3 then
        JoinOfSplit(date, '-');
        assert Join(parts, '-') == parts[0] + ['-'] + (parts[1] + ['-'] + parts[2]) by {
          assert parts[1..][1..] == [parts[2]];
          assert Join(parts[1..], '-') == parts[1] + ['-'] + parts[2];
        }
        parts[2] + "/" + parts[1] + "/" + parts[0]
      else date
  }

  /** An ISO date "Y-M-D" is shown as "D/M/Y". */
  lemma FormatIsoDate(y: string, m: string, d: string)
    requires '-' !in y && '-' !in m && '-' !in d
    ensures FormatDateSafely(y + "-" + m + "-" + d) == d + "/" + m + "/" + y
  {
    var parts := [y, m, d];
    assert Join(parts, '-') == y + "-" + m + "-" + d by {
      assert parts[1..] == [m, d] && parts[1..][1..] == [d];
      assert Join(parts[1..], '-') == m + "-" + d;
    }
    SplitOfJoin(parts, '-');
  }

  // ---------------------------------------------------------------- the weekly table

  function DefaultDay(key: string): DayHour {
    DayHour(key, false, "09:00", "18:00")
  }

  /** Seven entries, in `DAYS_OF_WEEK` order, each carrying its own weekday key. */
  predicate WellFormedTable(t: seq<DayHour>) {
    |t| == 7 && forall i :: 0 <= i < 7 ==> t[i].day == WeekDays[i]
  }

  /** The table the page starts with: every day closed, 09:00 to 18:00. */
  function InitialTable(): (t: seq<DayHour>)
    ensures WellFormedTable(t)
    ensures forall i :: 0 <= i < |t| ==> !t[i].enabled && t[i].start == "09:00" && t[i].end == "18:00"
  {
    seq(7, i requires 0 <= i < 7 => DefaultDay(WeekDays[i]))
  }

  /** The index of the entry `find(h => h.day === key)` returns, with "not found" as |saved|. */
  function FindDayIndex(saved: seq<DayHour>, key: string): (k: nat)
    ensures k <= |saved|
    ensures forall j :: 0 <= j < k ==> saved[j].day != key
    ensures k < |saved| ==> saved[k].day == key
  {
    if saved == [] then 0
    else if saved[0].day == key then 0
    else 1 + FindDayIndex(saved[1..], key)
  }

  /** The loaded table: for each weekday, the first saved entry for it, or the default. */
  function LoadedTable(saved: seq<DayHour>): (t: seq<DayHour>)
    ensures WellFormedTable(t)
  {
    seq(7, i requires 0 <= i < 7 =>
      var k := FindDayIndex(saved, WeekDays[i]);
      if k < |saved| then saved[k] else DefaultDay(WeekDays[i]))
  }

  /** A weekday with a saved entry gets the first such entry... */
  lemma LoadedDayIsFirstSaved(saved: seq<DayHour>, i: nat, j: nat)
    requires i < 7 && j < |saved| && saved[j].day == WeekDays[i]
    requires forall k :: 0 <= k < j ==> saved[k].day != WeekDays[i]
    ensures LoadedTable(saved)[i] == saved[j]
  {
    var k := FindDayIndex(saved, WeekDays[i]);
    assert !(k < j) && !(j < k);
  }

  /** ...and a weekday without one gets the default entry. */
  lemma LoadedDayIsDefault(saved: seq<DayHour>, i: nat)
    requires i < 7
    requires forall k :: 0 <= k < |saved| ==> saved[k].day != WeekDays[i]
    ensures LoadedTable(saved)[i] == DefaultDay(WeekDays[i])
  {
    assert FindDayIndex(saved, WeekDays[i]) == |saved|;
  }

  /** The weekday keys are pairwise different: they differ in first letter or in length. */
  lemma WeekDaysDistinct(i: nat, j: nat)
    requires i < 7 && j < 7 && i != j
    ensures WeekDays[i] != WeekDays[j]
  {
    var first := seq(7, k requires 0 <= k < 7 => WeekDays[k][0]);
    var len := seq(7, k requires 0 <= k < 7 => |WeekDays[k]|);
    assert first == ['m', 't', 'w', 't', 'f', 's', 's'];
    assert len == [6, 7, 9, 8, 6, 8, 6];
    assert first[i] != first[j] || len[i] != len[j];
  }

  /** Saving the table and loading it back gives the same table. */
  lemma LoadSavedTable(t: seq<DayHour>)
    requires WellFormedTable(t)
    ensures LoadedTable(t) == t
  {
    forall i | 0 <= i < 7 ensures LoadedTable(t)[i] == t[i] {
      forall k | 0 <= k < i ensures t[k].day != WeekDays[i] {
        WeekDaysDistinct(k, i);
      }
      LoadedDayIsFirstSaved(t, i, i);
    }
  }

  /** `toggleDay`: entry `i` with `enabled` flipped. */
  function Toggled(t: seq<DayHour>, i: nat): (r: seq<DayHour>)
    requires i < |t|
    ensures |r| == |t|
    ensures r[i].enabled == !t[i].enabled
    ensures r[i].day == t[i].day && r[i].start == t[i].start && r[i].end == t[i].end
    ensures forall j :: 0 <= j < |t| && j != i ==> r[j] == t[j]
  {
    t[i := t[i].(enabled := !t[i].enabled)]
  }

  /** Toggling a day twice restores the table. */
  lemma ToggleTwice(t: seq<DayHour>, i: nat)
    requires i < |t|
    ensures Toggled(Toggled(t, i), i) == t
  {
    assert forall j :: 0 <= j < |t| ==> Toggled(Toggled(t, i), i)[j] == t[j];
  }

  /** `updateHour`: field `field` of entry `i` set to `value`. */
  function WithHour(t: seq<DayHour>, i: nat, field: HourField, value: string): (r: seq<DayHour>)
    requires i < |t|
    ensures |r| == |t|
    ensures r[i].day == t[i].day && r[i].enabled == t[i].enabled
    ensures r[i].start == (if field == Start then value else t[i].start)
    ensures r[i].end == (if field == End then value else t[i].end)
    ensures forall j :: 0 <= j < |t| && j != i ==> r[j] == t[j]
  {
    match field
    case Start => t[i := t[i].(start := value)]
    case End => t[i := t[i].(end := value)]
  }

  // ---------------------------------------------------------------- blocked dates

  /** The record sent for a draft: no id, and no times when it blocks the whole day. */
  function Payload(d: BlockDraft): (b: BlockedDate)
    ensures b.id == None && b.date == d.date && b.reason == d.reason
    ensures b.fullDay == d.fullDay && b.repeatYearly == d.repeatYearly
    ensures b.startTime.None? <==> d.fullDay
    ensures b.endTime.None? <==> d.fullDay
    ensures !d.fullDay ==> b.startTime == Some(d.startTime) && b.endTime == Some(d.endTime)
  {
    BlockedDate(None, d.date,
      if d.fullDay then None else Some(d.startTime),
      if d.fullDay then None else Some(d.endTime),
      d.reason, d.fullDay, d.repeatYearly)
  }

  /** The request succeeded and returned a record with a non-empty id. */
  predicate ReturnsRecordWithId(reply: SaveReply) {
    reply.Saved? && reply.data.Some? && reply.data.value.id.Some? && reply.data.value.id.value != ""
  }

  /**
   * The block the page keeps: the server's record when the request succeeded and returned one
   * with a non-empty id, otherwise the payload under the made-up id.
   */
  function StoredBlock(payload: BlockedDate, reply: SaveReply, freshId: string): (b: BlockedDate)
    ensures ReturnsRecordWithId(reply) ==> b == reply.data.value
    ensures !ReturnsRecordWithId(reply) ==> b == payload.(id := Some(freshId))
    ensures freshId != "" ==> b.id.Some? && b.id.value != ""
  {
    match reply
    case Saved(Some(rec)) =>
      if rec.id.Some? && rec.id.value != "" then rec else payload.(id := Some(freshId))
    case _ => payload.(id := Some(freshId))
  }

  function WithoutId(id: string): BlockedDate -> bool {
    (b: BlockedDate) => b.id != Some(id)
  }

  /** `blockedDates.filter(b => b.id !== id)`. */
  function RemoveById(blocks: seq<BlockedDate>, id: string): (r: seq<BlockedDate>)
    ensures forall k :: 0 <= k < |r| ==> r[k].id != Some(id)
  {
    Filter(WithoutId(id), blocks)
  }

  /** Every block with another id (or none) is kept, as often as it occurred. */
  lemma RemoveKeepsOthers(blocks: seq<BlockedDate>, id: string, b: BlockedDate)
    ensures multiset(RemoveById(blocks, id))[b] == if b.id == Some(id) then 0 else multiset(blocks)[b]
  {
    FilterMultiset(WithoutId(id), blocks, b);
  }

  /** Removal works block by block: it distributes over concatenation... */
  lemma RemoveDistributes(a: seq<BlockedDate>, b: seq<BlockedDate>, id: string)
    ensures RemoveById(a + b, id) == RemoveById(a, id) + RemoveById(b, id)
  {
    FilterAppend(WithoutId(id), a, b);
  }

  /** ...and keeps a single block exactly when it does not carry the id; so the rest keep their order. */
  lemma RemoveOneBlock(b: BlockedDate, id: string)
    ensures RemoveById([b], id) == if b.id == Some(id) then [] else [b]
  {
    FilterOne(WithoutId(id), b);
  }

  /** Removing an id no block carries changes nothing. */
  lemma RemoveAbsentId(blocks: seq<BlockedDate>, id: string)
    requires forall k :: 0 <= k < |blocks| ==> blocks[k].id != Some(id)
    ensures RemoveById(blocks, id) == blocks
  {
    FilterKeepsAll(WithoutId(id), blocks);
  }

  /** `blockedDates.slice().reverse()`: the list as displayed, last first. */
  function DisplayOrder(blocks: seq<BlockedDate>): (shown: seq<BlockedDate>)
    ensures |shown| == |blocks|
    ensures forall k :: 0 <= k < |blocks| ==> shown[k] == blocks[|blocks| - 1 - k]
  {
    if blocks == [] then [] else DisplayOrder(blocks[1..]) + [blocks[0]]
  }

  /** A newly added block is displayed after all the older ones, which keep their order. */
  lemma NewBlockDisplayedLast(b: BlockedDate, blocks: seq<BlockedDate>)
    ensures DisplayOrder([b] + blocks) == DisplayOrder(blocks) + [b]
  {
    assert ([b] + blocks)[1..] == blocks;
  }

  /** The form after one of its controls is used. */
  function ApplyEdit(d: BlockDraft, e: DraftEdit): BlockDraft {
    match e
    case SetDate(v) => d.(date := v)
    case SetReason(v) => d.(reason := v)
    case ToggleFullDay => d.(fullDay := !d.fullDay)
    case ToggleRepeatYearly => d.(repeatYearly := !d.repeatYearly)
    case SetStartTime(v) => d.(startTime := v)
    case SetEndTime(v) => d.(endTime := v)
  }

  // ---------------------------------------------------------------- the page state

  class SchedulePage {
    /** `businessHours`, one slot per weekday. */
    var hours: array<DayHour>
    /** `blockedDates`, newest first. */
    var blocks: seq<BlockedDate>
    /** `newBlock`. */
    var draft: BlockDraft
    var deleteModal: DeleteModal

    ghost predicate Valid()
      reads this, hours
    {
      hours.Length == 7 && WellFormedTable(hours[..])
    }

    static method TableArray(t: seq<DayHour>) returns (a: array<DayHour>)
      requires WellFormedTable(t)
      ensures fresh(a) && a.Length == 7 && a[..] == t
    {
      a := new DayHour[7](i requires 0 <= i < 7 => t[i]);
    }

    constructor ()
      ensures Valid() && fresh(hours)
      ensures hours[..] == InitialTable() && blocks == [] && draft == EmptyDraft && deleteModal == ClosedModal
    {
      var table := TableArray(InitialTable());
      hours := table;
      blocks := [];
      draft := EmptyDraft;
      deleteModal := ClosedModal;
    }

    /** `fetchData`: install the loaded table and blocks; on failure only the blocks are cleared. */
    method Load(reply: LoadReply)
      requires Valid()
      modifies this
      ensures Valid()
      ensures reply.LoadFailed? ==> hours == old(hours) && blocks == []
      ensures reply.Loaded? ==> fresh(hours) && hours[..] == LoadedTable(reply.businessHours)
      ensures reply.Loaded? ==> blocks == reply.blockedDates.GetOr([])
      ensures draft == old(draft) && deleteModal == old(deleteModal)
    {
      match reply
      case LoadFailed =>
        blocks := [];
      case Loaded(saved, loadedBlocks) =>
        hours := TableArray(LoadedTable(saved));
        blocks := loadedBlocks.GetOr([]);
    }

    method ToggleDay(i: nat)
      requires Valid() && i < 7
      modifies hours
      ensures Valid()
      ensures hours[..] == Toggled(old(hours[..]), i)
    {
      hours[i] := hours[i].(enabled := !hours[i].enabled);
    }

    method UpdateHour(i: nat, field: HourField, value: string)
      requires Valid() && i < 7
      modifies hours
      ensures Valid()
      ensures hours[..] == WithHour(old(hours[..]), i, field, value)
    {
      match field
      case Start => hours[i] := hours[i].(start := value);
      case End => hours[i] := hours[i].(end := value);
    }

    /** `saveBusinessHours`: the table it sends, which loads back unchanged. */
    method SaveBusinessHours() returns (sent: seq<DayHour>)
      requires Valid()
      ensures sent == hours[..]
      ensures LoadedTable(sent) == sent
    {
      sent := hours[..];
      LoadSavedTable(sent);
    }

    method EditDraft(e: DraftEdit)
      modifies this`draft
      ensures draft == ApplyEdit(old(draft), e)
    {
      draft := ApplyEdit(draft, e);
    }

    /**
     * `addBlockedDate`: nothing happens without a date; otherwise the payload is sent, the
     * kept block is put in front of the list (whether the request succeeded or not) and the
     * form is reset.
     */
    method AddBlockedDate(reply: SaveReply, freshId: string) returns (sent: Option<BlockedDate>)
      modifies this`blocks, this`draft
      ensures old(draft).date == "" ==> sent == None && blocks == old(blocks) && draft == old(draft)
      ensures old(draft).date != "" ==> sent == Some(Payload(old(draft)))
      ensures old(draft).date != "" ==>
                blocks == [StoredBlock(Payload(old(draft)), reply, freshId)] + old(blocks)
                && draft == EmptyDraft
    {
      if draft.date == "" {
        return None;
      }
      var payload := Payload(draft);
      sent := Some(payload);
      blocks := [StoredBlock(payload, reply, freshId)] + blocks;
      draft := EmptyDraft;
    }

    /** The trash button of a block: opens the confirmation only for a block with an id. */
    method AskRemove(block: BlockedDate)
      modifies this`deleteModal
      ensures block.id.Some? && block.id.value != "" ==> deleteModal == DeleteModal(true, block.id)
      ensures !(block.id.Some? && block.id.value != "") ==> deleteModal == old(deleteModal)
    {
      if block.id.Some? && block.id.value != "" {
        deleteModal := DeleteModal(true, block.id);
      }
    }

    method CancelRemove()
      modifies this`deleteModal
      ensures deleteModal == ClosedModal
    {
      deleteModal := ClosedModal;
    }

    /**
     * `confirmRemove`: without an id nothing happens (the modal stays as it is); otherwise
     * every block with that id is dropped, whatever the server answers, and the modal closes.
     */
    method ConfirmRemove()
      modifies this`blocks, this`deleteModal
      ensures old(deleteModal).id.None? || old(deleteModal).id == Some("") ==>
                blocks == old(blocks) && deleteModal == old(deleteModal)
      ensures old(deleteModal).id.Some? && old(deleteModal).id != Some("") ==>
                blocks == RemoveById(old(blocks), old(deleteModal).id.value) && deleteModal == ClosedModal
    {
      var id := deleteModal.id;
      if id.None? || id.value == "" {
        return;
      }
      blocks := RemoveById(blocks, id.value);
      deleteModal := ClosedModal;
    }
  }
}
