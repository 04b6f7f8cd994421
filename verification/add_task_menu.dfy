/** The task-creation form (src/features/add.task.menu.jsx): its draft subtasks, the
    attachment allow-list, the file-size unit, and save/reset. The clock (`Date.now()`)
    and the random part of attachment ids are parameters. */
module AddTaskMenu {
  import opened Wrappers
  import opened Text
  import Seqs

  /** A draft subtask row. */
  datatype Draft = Draft(id: int, title: string, completed: bool)

  /** A file offered by the picker or a drop. */
  datatype FileInfo = FileInfo(name: string, size: int, mime: string)

  datatype Attachment = Attachment(id: int, name: string, size: int, mime: string)

  /** The form's state. */
  datatype Form = Form(title: string, description: string, subtasks: seq<Draft>,
                       attachments: seq<Attachment>, isDragging: bool)

  /** What `onSave` receives. */
  datatype NewTask = NewTask(title: string, description: string, subtasks: seq<Draft>, attachments: seq<Attachment>)

  // ---------------------------------------------------------------------------
  // Draft subtasks

  /** `handleAddSubtask`: a new untitled, incomplete row with id `now`. */
  function AddSubtask(f: Form, now: int): (r: Form)
    ensures |r.subtasks| == |f.subtasks| + 1
    ensures r.subtasks[..|f.subtasks|] == f.subtasks
    ensures r.subtasks[|f.subtasks|] == Draft(now, "", false)
    ensures r == f.(subtasks := r.subtasks)
  {
    f.(subtasks := f.subtasks + [Draft(now, "", false)])
  }

  /** `handleSubtaskChange`: retitles every row with the given id. */
  function ChangeSubtask(f: Form, id: int, value: string): (r: Form)
    ensures |r.subtasks| == |f.subtasks|
    ensures forall i :: 0 <= i < |f.subtasks| ==>
      r.subtasks[i].id == f.subtasks[i].id && r.subtasks[i].completed == f.subtasks[i].completed
      && r.subtasks[i].title == (if f.subtasks[i].id == id then value else f.subtasks[i].title)
    ensures r == f.(subtasks := r.subtasks)
  {
    f.(subtasks := seq(|f.subtasks|, i requires 0 <= i < |f.subtasks| =>
         if f.subtasks[i].id == id then f.subtasks[i].(title := value) else f.subtasks[i]))
  }

  /** `handleSubtaskToggle`: flips `completed` on every row with the given id. */
  function ToggleSubtask(f: Form, id: int): (r: Form)
    ensures |r.subtasks| == |f.subtasks|
    ensures forall i :: 0 <= i < |f.subtasks| ==>
      r.subtasks[i].id == f.subtasks[i].id && r.subtasks[i].title == f.subtasks[i].title
      && (r.subtasks[i].completed <==> (f.subtasks[i].completed != (f.subtasks[i].id == id)))
    ensures r == f.(subtasks := r.subtasks)
  {
    f.(subtasks := seq(|f.subtasks|, i requires 0 <= i < |f.subtasks| =>
         if f.subtasks[i].id == id then f.subtasks[i].(completed := !f.subtasks[i].completed) else f.subtasks[i]))
  }

  /** Toggling the same row twice restores the form. */
  lemma ToggleSubtaskTwice(f: Form, id: int)
    ensures ToggleSubtask(ToggleSubtask(f, id), id) == f
  {
    var r := ToggleSubtask(ToggleSubtask(f, id), id);
    assert r.subtasks == f.subtasks;
  }

  /** `handleRemoveSubtask`: drops every row with the given id and keeps the rest in order. */
  function RemoveSubtask(f: Form, id: int): (r: Form)
    ensures forall d :: d in r.subtasks <==> d in f.subtasks && d.id != id
    ensures r.subtasks == Seqs.Filter(f.subtasks, (d: Draft) => d.id != id)
    ensures r == f.(subtasks := r.subtasks)
  {
    f.(subtasks := Seqs.Filter(f.subtasks, (d: Draft) => d.id != id))
  }

  /** Removal keeps the remaining rows in order: split the rows anywhere, and the result
      is the two halves' results one after the other. */
  lemma RemoveSubtaskKeepsOrder(f: Form, a: seq<Draft>, b: seq<Draft>, id: int)
    requires f.subtasks == a + b
    ensures RemoveSubtask(f, id).subtasks
         == RemoveSubtask(f.(subtasks := a), id).subtasks + RemoveSubtask(f.(subtasks := b), id).subtasks
  {
    Seqs.FilterAppend(a, b, (d: Draft) => d.id != id);
  }

  /** Removing a just-added row whose id no other row carries gives the form back. */
  lemma RemoveUndoesAdd(f: Form, now: int)
    requires forall i :: 0 <= i < |f.subtasks| ==> f.subtasks[i].id != now
    ensures RemoveSubtask(AddSubtask(f, now), now) == f
  {
    var keep := (d: Draft) => d.id != now;
    Seqs.FilterAppend(f.subtasks, [Draft(now, "", false)], keep);
    Seqs.FilterAll(f.subtasks, keep);
    assert Seqs.Filter([Draft(now, "", false)], keep) == [] by {
      assert [Draft(now, "", false)][..0] == [];
    }
  }

  // ---------------------------------------------------------------------------
  // Attachments

  const AcceptedTypes: seq<string> := [
    "image/png",
    "image/jpeg",
    "image/jpg",
    "application/pdf",
    "application/vnd.openxmlformats-officedocument.wordprocessingml.document",
    "application/msword"
  ]

  /** 10 MiB */
  const MaxSize: int := 10 * 1024 * 1024

  /** The allow-list test of `handleFiles`. */
  predicate Accepted(file: FileInfo) {
    file.mime in AcceptedTypes && file.size <= MaxSize
  }

  /** The file an attachment was made from. */
  function Source(a: Attachment): FileInfo {
    FileInfo(a.name, a.size, a.mime)
  }

  /** `handleFiles`: the accepted files, in order, become attachments after the existing
      ones; the k-th new attachment gets id `idFor(k)`. */
  function HandleFiles(f: Form, files: seq<FileInfo>, idFor: nat -> int): (r: Form)
    ensures |r.attachments| >= |f.attachments|
    ensures r.attachments[..|f.attachments|] == f.attachments
    ensures var added := r.attachments[|f.attachments|..];
            |added| == |Seqs.Filter(files, Accepted)|
            && forall k :: 0 <= k < |added| ==>
                 Source(added[k]) == Seqs.Filter(files, Accepted)[k] && added[k].id == idFor(k)
    ensures r == f.(attachments := r.attachments)
  {
    var valid := Seqs.Filter(files, Accepted);
    var added := seq(|valid|, k requires 0 <= k < |valid| =>
                     Attachment(idFor(k), valid[k].name, valid[k].size, valid[k].mime));
    assert (f.attachments + added)[|f.attachments|..] == added;
    f.(attachments := f.attachments + added)
  }

  /** A file becomes an attachment exactly when it passes the allow-list. */
  lemma HandleFilesAcceptsIff(f: Form, files: seq<FileInfo>, idFor: nat -> int, file: FileInfo)
    ensures var added := HandleFiles(f, files, idFor).attachments[|f.attachments|..];
            (exists k :: 0 <= k < |added| && Source(added[k]) == file) <==> file in files && Accepted(file)
  {
    var added := HandleFiles(f, files, idFor).attachments[|f.attachments|..];
    var valid := Seqs.Filter(files, Accepted);
    if file in files && Accepted(file) {
      var k :| 0 <= k < |valid| && valid[k] == file;
      assert Source(added[k]) == file;
    }
    if exists k :: 0 <= k < |added| && Source(added[k]) == file {
      var k :| 0 <= k < |added| && Source(added[k]) == file;
      assert valid[k] in valid;
    }
  }

  /** `handleDragOver` and `handleDragLeave` */
  function DragOver(f: Form): (r: Form)
    ensures r.isDragging && r == f.(isDragging := true)
  {
    f.(isDragging := true)
  }

  function DragLeave(f: Form): (r: Form)
    ensures !r.isDragging && r == f.(isDragging := false)
  {
    f.(isDragging := false)
  }

  /** `handleDrop`: ends the drag, then handles the dropped files. */
  function Drop(f: Form, files: seq<FileInfo>, idFor: nat -> int): (r: Form)
    ensures !r.isDragging
    ensures r.attachments == HandleFiles(f, files, idFor).attachments
  {
    HandleFiles(f.(isDragging := false), files, idFor)
  }

  /** `handleRemoveAttachment`: drops every attachment with the given id. */
  function RemoveAttachment(f: Form, id: int): (r: Form)
    ensures forall a :: a in r.attachments <==> a in f.attachments && a.id != id
    ensures r.attachments == Seqs.Filter(f.attachments, (a: Attachment) => a.id != id)
    ensures r == f.(attachments := r.attachments)
  {
    f.(attachments := Seqs.Filter(f.attachments, (a: Attachment) => a.id != id))
  }

  /** The remaining attachments keep their order: splitting the list splits the result. */
  lemma RemoveAttachmentKeepsOrder(f: Form, a: seq<Attachment>, b: seq<Attachment>, id: int)
    requires f.attachments == a + b
    ensures RemoveAttachment(f, id).attachments
         == RemoveAttachment(f.(attachments := a), id).attachments + RemoveAttachment(f.(attachments := b), id).attachments
  {
    Seqs.FilterAppend(a, b, (x: Attachment) => x.id != id);
  }

  // ---------------------------------------------------------------------------
  // File size

  datatype SizeUnit = Bytes | Kilobytes | Megabytes

  function UnitSuffix(u: SizeUnit): string {
    match u
    case Bytes => " B"
    case Kilobytes => " KB"
    case Megabytes => " MB"
  }

  function UnitRank(u: SizeUnit): nat {
    match u
    case Bytes => 0
    case Kilobytes => 1
    case Megabytes => 2
  }

  /** The unit `formatFileSize` prints. */
  function FileSizeUnit(bytes: int): (u: SizeUnit)
    ensures u == Bytes <==> bytes < 1024
    ensures u == Kilobytes <==> 1024 <= bytes < 1024 * 1024
    ensures u == Megabytes <==> 1024 * 1024 <= bytes
  {
    if bytes < 1024 then Bytes
    else if bytes < 1024 * 1024 then Kilobytes
    else Megabytes
  }

  /** A larger file never gets a smaller unit. */
  lemma FileSizeUnitMonotone(a: int, b: int)
    requires a <= b
    ensures UnitRank(FileSizeUnit(a)) <= UnitRank(FileSizeUnit(b))
  {
  }

  // ---------------------------------------------------------------------------
  // Save and reset

  predicate Titled(d: Draft) {
    Trim(d.title) != ""
  }

  /** `handleReset`: empties the four fields; the drag flag is not touched. */
  function Reset(f: Form): (r: Form)
    ensures r.title == "" && r.description == "" && r.subtasks == [] && r.attachments == []
    ensures r.isDragging == f.isDragging
  {
    Form("", "", [], [], f.isDragging)
  }

  /** `handleClose` resets the form (the close callback itself is outside the model). */
  function Close(f: Form): (r: Form)
    ensures r == Reset(f)
  {
    Reset(f)
  }

  datatype Saved = Saved(emitted: Option<NewTask>, form: Form)

  /** `handleSave`: a whitespace-only title does nothing; otherwise the task, with only its
      titled drafts, is handed to `onSave` and the form is reset. `onSave` is optional in the
      component; `emitted` is the task it would receive. */
  function Save(f: Form): (r: Saved)
    ensures r.emitted.None? <==> Blank(f.title)
    ensures r.emitted.None? ==> r.form == f
    ensures r.emitted.Some? ==>
      && r.emitted.value.title == f.title
      && r.emitted.value.description == f.description
      && r.emitted.value.attachments == f.attachments
      && (forall d :: d in r.emitted.value.subtasks <==> d in f.subtasks && !Blank(d.title))
      && r.emitted.value.subtasks == Seqs.Filter(f.subtasks, Titled)
      && r.form == Reset(f)
  {
    TrimEmptyIffBlank(f.title);
    if Trim(f.title) == "" then Saved(None, f)
    else
      assert forall d :: d in f.subtasks ==> (Titled(d) <==> !Blank(d.title)) by {
        forall d | d in f.subtasks ensures Titled(d) <==> !Blank(d.title) {
          TrimEmptyIffBlank(d.title);
        }
      }
      Saved(Some(NewTask(f.title, f.description, Seqs.Filter(f.subtasks, Titled), f.attachments)), Reset(f))
  }

  /** The saved subtasks are the titled drafts in their order in the form: splitting the
      drafts anywhere splits the saved list at the same place. */
  lemma SaveKeepsDraftOrder(f: Form, a: seq<Draft>, b: seq<Draft>)
    requires !Blank(f.title) && f.subtasks == a + b
    ensures Save(f).emitted.Some? && Save(f.(subtasks := a)).emitted.Some? && Save(f.(subtasks := b)).emitted.Some?
    ensures Save(f).emitted.value.subtasks
         == Save(f.(subtasks := a)).emitted.value.subtasks + Save(f.(subtasks := b)).emitted.value.subtasks
  {
    Seqs.FilterAppend(a, b, Titled);
  }

  /** A second save right after a successful one emits nothing. */
  lemma SaveTwiceEmitsOnce(f: Form)
    requires Save(f).emitted.Some?
    ensures Save(Save(f).form).emitted.None?
  {
  }
}
