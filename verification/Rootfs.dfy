/** Preparing and growing a VM's disk file, `rootfs.rs`, with every file and tool outcome
    chosen by the environment. */
module Rootfs {
  import opened Sequences
  import opened Wrappers

  /** A disk image file: its raw length and the length its filesystem was last grown to. */
  datatype Disk = Disk(length: nat, filesystem: nat)

  datatype Tool = CouldNotRun | Killed | Exited(code: nat)

  /** What the environment answers to each step of one attempt. `copied` is the length
      written before a failing copy stopped; `restored` and `removed` are the clean-up calls
      whose errors the code ignores. */
  datatype Outcomes = Outcomes(
    directories: bool, inspected: bool, created: bool, copied: Option<nat>, synced: bool, renamed: bool,
    measured: bool, openable: bool, extended: bool, fsck: Tool, resize: Tool, restored: bool, removed: bool)

  datatype RootfsError = CreateDirectory | Inspect | Copy | Publish | Extend | ResizeTool | ResizeFailed

  /** The generation file and its temporary sibling. */
  datatype Files = Files(disk: Option<Disk>, temporary: Option<nat>)

  function RunTool(tool: Tool, highest: nat): Result<(), RootfsError> {
    match tool
    case CouldNotRun => Err(ResizeTool)
    case Killed => Err(ResizeFailed)
    case Exited(code) => if code <= highest then Ok(()) else Err(ResizeFailed)
  }

  /** e2fsck may exit with 1, errors corrected; resize2fs must exit with 0. */
  function RunTools(o: Outcomes): Result<(), RootfsError> {
    var checked := RunTool(o.fsck, 1);
    if checked.Err? then checked else RunTool(o.resize, 0)
  }

  function Grown(disk: Disk, target: nat, o: Outcomes): (Disk, Result<(), RootfsError>) {
    if !o.measured then (disk, Err(Inspect))
    else if target <= disk.length then (disk, Ok(()))
    else if !o.openable || !o.extended then (disk, Err(Extend))
    else
      var tools := RunTools(o);
      if tools.Ok? then (Disk(target, target), tools)
      else if o.restored then (disk, tools)
      else (disk.(length := target), tools)
  }

  function Published(files: Files, template: nat, o: Outcomes): (Files, Result<(), RootfsError>) {
    if !o.created then (files, Err(Copy))
    else if o.copied.Some? then (files.(temporary := o.copied), Err(Copy))
    else if !o.synced then (files.(temporary := Some(template)), Err(Copy))
    else if !o.renamed then (files.(temporary := Some(template)), Err(Publish))
    else (Files(Some(Disk(template, template)), None), Ok(()))
  }

  function Prepared(files: Files, template: nat, target: nat, o: Outcomes): (Files, Result<(), RootfsError>) {
    if !o.directories then (files, Err(CreateDirectory))
    else if !o.inspected then (files, Err(Inspect))
    else if files.disk.Some? then
      var (disk, r) := Grown(files.disk.value, target, o);
      (files.(disk := Some(disk)), r)
    else
      var (published, r) := Published(if o.removed then files.(temporary := None) else files, template, o);
      if r.Err? then (if o.removed then Files(None, None) else published, r)
      else
        var (disk, r') := Grown(published.disk.value, target, o);
        (if r'.Err? && o.removed then Files(None, None) else published.(disk := Some(disk)), r')
  }

  class VmDisk {
    var disk: Option<Disk>
    var temporary: Option<nat>

    constructor ()
      ensures View() == Files(None, None)
    {
      disk, temporary := None, None;
    }

    function View(): Files
      reads this
    {
      Files(disk, temporary)
    }

    method PublishTemplate(template: nat, o: Outcomes) returns (r: Result<(), RootfsError>)
      modifies this
      ensures (View(), r) == Published(old(View()), template, o)
    {
      if !o.created { return Err(Copy); }
      temporary := Some(if o.copied.Some? then o.copied.value else template);
      if o.copied.Some? || !o.synced { return Err(Copy); }
      if !o.renamed { return Err(Publish); }
      disk, temporary := Some(Disk(template, template)), None;
      return Ok(());
    }

    method Grow(target: nat, o: Outcomes) returns (r: Result<(), RootfsError>)
      requires disk.Some?
      modifies this`disk
      ensures disk.Some? && (disk.value, r) == Grown(old(disk.value), target, o)
    {
      if !o.measured { return Err(Inspect); }
      var current := disk.value.length;
      if target <= current { return Ok(()); }
      if !o.openable || !o.extended { return Err(Extend); }
      disk := Some(disk.value.(length := target));
      r := RunTools(o);
      if r.Ok? {
        disk := Some(disk.value.(filesystem := target));
      } else if o.restored {
        disk := Some(disk.value.(length := current));
      }
    }

    method PrepareRootfs(template: nat, target: nat, o: Outcomes) returns (r: Result<(), RootfsError>)
      modifies this
      ensures (View(), r) == Prepared(old(View()), template, target, o)
    {
      if !o.directories { return Err(CreateDirectory); }
      if !o.inspected { return Err(Inspect); }
      var freshlyCreated := disk.None?;
      if freshlyCreated {
        if o.removed { temporary := None; }
        r := PublishTemplate(template, o);
        if r.Err? {
          if o.removed { disk, temporary := None, None; }
          return;
        }
      }
      r := Grow(target, o);
      if r.Err? && freshlyCreated && o.removed {
        disk, temporary := None, None;
      }
    }
  }

  // ----- What attempts keep

  /** The raw length tells what the filesystem was grown to. */
  predicate LengthTells(files: Files) {
    files.disk.Some? ==> files.disk.value.length == files.disk.value.filesystem
  }

  function Max(a: nat, b: nat): nat {
    if a < b then b else a
  }

  /** Success, whatever the clean-up calls did, leaves a disk of the length asked for or more,
      no shorter than before and grown to that length. */
  lemma PrepareSucceeds(files: Files, template: nat, target: nat, o: Outcomes)
    requires LengthTells(files) && Prepared(files, template, target, o).1.Ok?
    ensures
      var size := Max(if files.disk.Some? then files.disk.value.length else template, target);
      Prepared(files, template, target, o).0.disk == Some(Disk(size, size))
  {
  }

  /** e2fsck found nothing or corrected it, and resize2fs succeeded. */
  predicate ToolsAccept(o: Outcomes) {
    o.fsck in {Exited(0), Exited(1)} && o.resize == Exited(0)
  }

  /** An attempt succeeds exactly when the template, if the disk is not there yet, is published and
      the disk is found long enough or is grown by both tools. */
  lemma PrepareOkExactly(files: Files, template: nat, target: nat, o: Outcomes)
    ensures Prepared(files, template, target, o).1.Ok? <==>
            && o.directories && o.inspected
            && (files.disk.None? ==> o.created && o.copied.None? && o.synced && o.renamed)
            && o.measured
            && (target <= (if files.disk.Some? then files.disk.value.length else template)
                || (o.openable && o.extended && ToolsAccept(o)))
  {
  }

  /** Otherwise the first thing that went wrong is what it reports. */
  lemma PrepareError(files: Files, template: nat, target: nat, o: Outcomes)
    requires Prepared(files, template, target, o).1.Err?
    ensures
      Prepared(files, template, target, o).1.error ==
      if !o.directories then CreateDirectory
      else if !o.inspected then Inspect
      else if files.disk.None? && (!o.created || o.copied.Some? || !o.synced) then Copy
      else if files.disk.None? && !o.renamed then Publish
      else if !o.measured then Inspect
      else if !o.openable || !o.extended then Extend
      else if o.fsck == CouldNotRun || (o.fsck in {Exited(0), Exited(1)} && o.resize == CouldNotRun) then ResizeTool
      else ResizeFailed
  {
  }

  /** A failed attempt leaves an existing disk as it was when the length restore works, and a
      failed first attempt leaves nothing when the removals work. */
  lemma PrepareFails(files: Files, template: nat, target: nat, o: Outcomes)
    requires LengthTells(files) && Prepared(files, template, target, o).1.Err?
    ensures files.disk.Some? && o.restored ==> Prepared(files, template, target, o).0 == files
    ensures files.disk.Some? ==>
              Prepared(files, template, target, o).0
              in {files, files.(disk := Some(files.disk.value.(length := target)))}
    ensures files.disk.None? && o.directories && o.inspected && o.removed ==>
              Prepared(files, template, target, o).0 == Files(None, None)
  {
  }

  /** The tools fail on a disk that has been extended, and its length is not restored. */
  predicate GrowthStranded(length: nat, target: nat, o: Outcomes) {
    o.measured && o.openable && o.extended && target > length && !ToolsAccept(o) && !o.restored
  }

  /** A first attempt that gets as far as publishing the template, and cannot take it back. */
  predicate PublishedForGood(o: Outcomes) {
    o.created && o.copied.None? && o.synced && o.renamed && !o.removed
  }

  /** An attempt makes the length lie exactly when it strands a growth: of an existing disk, or
      of a fresh one that it then fails to remove. */
  predicate Strands(files: Files, template: nat, target: nat, o: Outcomes) {
    && o.directories && o.inspected
    && if files.disk.Some? then GrowthStranded(files.disk.value.length, target, o)
       else PublishedForGood(o) && GrowthStranded(template, target, o)
  }

  lemma LengthTellsExactly(files: Files, template: nat, target: nat, o: Outcomes)
    requires LengthTells(files)
    ensures LengthTells(Prepared(files, template, target, o).0) <==> !Strands(files, template, target, o)
  {
  }

  /** Then the length check takes the disk for grown: every retry that can read its length
      reports success although the filesystem never reached the target. */
  lemma StrandedLengthSkipsTheRetry(files: Files, template: nat, target: nat, o: Outcomes, retry: Outcomes)
    requires LengthTells(files) && Strands(files, template, target, o)
    requires retry.directories && retry.inspected && retry.measured
    ensures
      var after := Prepared(files, template, target, o).0;
      var (again, r) := Prepared(after, template, target, retry);
      r.Ok? && again.disk.Some? && again.disk.value.filesystem < target
  {
  }

  /** A temporary file is left exactly when the attempt stops between creating and renaming it
      and cannot remove it, or when an earlier one's is neither removed nor written over. */
  lemma TemporaryLeftExactly(files: Files, template: nat, target: nat, o: Outcomes)
    ensures Prepared(files, template, target, o).0.temporary.Some? <==>
            if !o.directories || !o.inspected || files.disk.Some? then files.temporary.Some?
            else
              && !o.removed
              && if o.created then o.copied.Some? || !o.synced || !o.renamed else files.temporary.Some?
  {
  }

  datatype Attempt = Attempt(template: nat, target: nat, outcomes: Outcomes)

  function Run(attempts: seq<Attempt>): Files {
    if attempts == [] then Files(None, None)
    else
      var last := attempts[|attempts| - 1];
      Prepared(Run(attempts[..|attempts| - 1]), last.template, last.target, last.outcomes).0
  }

  ghost predicate AllRestore(attempts: seq<Attempt>) {
    forall i :: 0 <= i < |attempts| ==> attempts[i].outcomes.restored
  }

  lemma RunOneMore(attempts: seq<Attempt>, last: Attempt)
    ensures Run(attempts + [last]) == Prepared(Run(attempts), last.template, last.target, last.outcomes).0
  {
    assert (attempts + [last])[..|attempts|] == attempts;
  }

  /** Over every sequence of attempts whose length restores work, whatever else fails: the raw
      length is always the length the filesystem was last grown to. */
  lemma {:induction false} RunLengthTells(attempts: seq<Attempt>)
    requires AllRestore(attempts)
    ensures LengthTells(Run(attempts))
  {
    if attempts != [] {
      var init, last := attempts[..|attempts| - 1], attempts[|attempts| - 1];
      RunLengthTells(init);
      LengthTellsExactly(Run(init), last.template, last.target, last.outcomes);
    }
  }

  /** And over every sequence of attempts at all, a disk, once there, stays and never shrinks. */
  lemma {:induction false} DiskNeverShrinks(attempts: seq<Attempt>, later: seq<Attempt>)
    requires Run(attempts).disk.Some?
    ensures Run(attempts + later).disk.Some?
    ensures Run(attempts).disk.value.length <= Run(attempts + later).disk.value.length
    decreases |later|
  {
    if later == [] {
      EmptyRight(attempts);
    } else {
      var init, last := later[..|later| - 1], later[|later| - 1];
      DiskNeverShrinks(attempts, init);
      Snoc(later);
      Associative(attempts, init, [last]);
      RunOneMore(attempts + init, last);
    }
  }

  /** So whenever the length check finds nothing to do, the filesystem is large enough: no
      growth that is still needed is skipped. */
  lemma NoRetryIsSkipped(attempts: seq<Attempt>, next: Attempt)
    requires AllRestore(attempts)
    ensures
      var (files', r) := Prepared(Run(attempts), next.template, next.target, next.outcomes);
      r.Ok? ==> files'.disk.Some? && files'.disk.value.filesystem >= next.target
  {
    RunLengthTells(attempts);
  }

  /** Attempts whose removals work too leave no temporary file, over every run. */
  lemma {:induction false} RunLeavesNoTemporary(attempts: seq<Attempt>)
    requires forall i :: 0 <= i < |attempts| ==> attempts[i].outcomes.removed
    ensures Run(attempts).temporary.None?
  {
    if attempts != [] {
      var init, last := attempts[..|attempts| - 1], attempts[|attempts| - 1];
      RunLeavesNoTemporary(init);
      TemporaryLeftExactly(Run(init), last.template, last.target, last.outcomes);
    }
  }
}
