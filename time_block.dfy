/** One editable block of the daily log: its local copy of the entry's fields, the
    collapse flag, and what it hands back to the page on an edit or a delete. */
module TimeBlockEditor {
  import opened Seqs
  import opened TimeEntries

  /** `TimeBlockData`: the fields a block edits. */
  datatype TimeBlockData = TimeBlockData(startTime: string, endTime: string, activity: string, category: Category)

  /** One `handleUpdate(field, value)` call: the field it names and the value it writes. */
  datatype Edit =
    | SetStartTime(startTime: string)
    | SetEndTime(endTime: string)
    | SetActivity(activity: string)
    | SetCategory(category: Category)

  /** `{ ...data, [field]: value }`: the named field takes the value, the others keep theirs. */
  function Applied(d: TimeBlockData, edit: Edit): (r: TimeBlockData)
    ensures r.startTime == (if edit.SetStartTime? then edit.startTime else d.startTime)
    ensures r.endTime == (if edit.SetEndTime? then edit.endTime else d.endTime)
    ensures r.activity == (if edit.SetActivity? then edit.activity else d.activity)
    ensures r.category == (if edit.SetCategory? then edit.category else d.category)
  {
    match edit
    case SetStartTime(v) => d.(startTime := v)
    case SetEndTime(v) => d.(endTime := v)
    case SetActivity(v) => d.(activity := v)
    case SetCategory(v) => d.(category := v)
  }

  /** Writing the same value twice is writing it once. */
  lemma AppliedTwice(d: TimeBlockData, edit: Edit)
    ensures Applied(Applied(d, edit), edit) == Applied(d, edit)
  {
  }

  predicate SameField(e1: Edit, e2: Edit) {
    (e1.SetStartTime? && e2.SetStartTime?) || (e1.SetEndTime? && e2.SetEndTime?)
      || (e1.SetActivity? && e2.SetActivity?) || (e1.SetCategory? && e2.SetCategory?)
  }

  /** Edits of two different fields can happen in either order. */
  lemma AppliedCommute(d: TimeBlockData, e1: Edit, e2: Edit)
    requires !SameField(e1, e2)
    ensures Applied(Applied(d, e1), e2) == Applied(Applied(d, e2), e1)
  {
  }

  /** What the page makes of the record it receives: `updateTimeEntry(id, data)` with every
      field of the record present and no duration. */
  function PatchOf(d: TimeBlockData): (p: Patch)
    ensures p.startTime == Some(d.startTime) && p.endTime == Some(d.endTime)
    ensures p.activity == Some(d.activity) && p.category == Some(d.category)
    ensures p.date.None? && p.duration.None?
  {
    Patch(None, Some(d.startTime), Some(d.endTime), Some(d.activity), Some(d.category), None)
  }

  /** Because the whole record is sent, any edit recomputes the duration as soon as one of the
      block's times is set, and keeps the stored duration while both are empty. */
  lemma BlockUpdateDuration(e: TimeEntry, d: TimeBlockData)
    requires WellFormed(e) && IsTimeField(d.startTime) && IsTimeField(d.endTime)
    ensures PatchWellFormed(PatchOf(d))
    ensures var r := Patched(e, PatchOf(d));
      r.startTime == d.startTime && r.endTime == d.endTime && r.activity == d.activity &&
      r.category == d.category && r.date == e.date && r.id == e.id &&
      r.duration == if d.startTime != "" || d.endTime != "" then CalculateDuration(d.startTime, d.endTime) else e.duration
  {
  }

  /** A block's state. */
  class TimeBlock {
    const id: string
    var data: TimeBlockData
    var isCollapsed: bool

    /** Props left out default to empty strings and the maintenance category; blocks start expanded. */
    constructor(id: string, startTime: Option<string>, endTime: Option<string>,
                activity: Option<string>, category: Option<Category>)
      ensures this.id == id && !isCollapsed
      ensures data == TimeBlockData(startTime.GetOr(""), endTime.GetOr(""), activity.GetOr(""),
                                    category.GetOr(Maintenance))
    {
      this.id := id;
      data := TimeBlockData(startTime.GetOr(""), endTime.GetOr(""), activity.GetOr(""),
                            category.GetOr(Maintenance));
      isCollapsed := false;
    }

    /** `handleUpdate`: applies the edit and returns the arguments of the `onUpdate` call, the
        block's id and its whole new record. */
    method HandleUpdate(edit: Edit) returns (sentId: string, sent: TimeBlockData)
      modifies this
      ensures data == Applied(old(data), edit) && isCollapsed == old(isCollapsed)
      ensures sentId == id && sent == data
    {
      var newData := Applied(data, edit);
      data := newData;
      sentId, sent := id, newData;
    }

    /** The chevron button. */
    method ToggleCollapsed()
      modifies this
      ensures isCollapsed == !old(isCollapsed) && data == old(data)
    {
      isCollapsed := !isCollapsed;
    }

    /** Either delete button: `onDelete(id)` with the block's own id. */
    method DeleteClicked() returns (deletedId: string)
      ensures deletedId == id
    {
      deletedId := id;
    }
  }

  /** Two clicks on the chevron leave the block as it was. */
  method ToggleTwice(b: TimeBlock)
    modifies b
    ensures b.isCollapsed == old(b.isCollapsed) && b.data == old(b.data)
  {
    b.ToggleCollapsed();
    b.ToggleCollapsed();
  }
}
