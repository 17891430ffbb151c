// One target's testfile, its .prefilled marker and the free space of its filesystem.
module Testfile {
  import opened Wrappers
  import opened Arithmetic

  const GIB: nat := 0x4000_0000

  // size in bytes; the first `written` of them are in the written state.
  datatype File = File(size: nat, written: nat)

  datatype Disk = Disk(file: Option<File>, marker: bool, free: nat)

  // How a prefill ends: written and marked; the same, but reported as a failure; or broken off, leaving
  // some file and no marker.
  datatype Write = Done | Unreported | Broken(remains: Option<File>)

  // How the remote side answers one prepare: whether the size probe and the marker probe come back,
  // and how a prefill ends.
  datatype Answer = Answer(sizeProbe: bool, markerProbe: bool, write: Write)

  datatype Verdict = Ready | Refused | PrefillFailed

  function SizeOf(file: Option<File>): nat {
    if file.Some? then file.value.size else 0
  }

  function WrittenOf(file: Option<File>): nat {
    if file.Some? then file.value.written else 0
  }

  // The size in whole GiB that the size probe reports, if the file exists and the probe comes back.
  function ExistingGib(file: Option<File>, sizeProbe: bool): Option<nat> {
    if file.Some? && sizeProbe then Some(file.value.size / GIB) else None
  }

  predicate WellFormed(d: Disk) {
    d.file.Some? ==> d.file.value.written <= d.file.value.size
  }

  // A sequential write of `bytes` bytes that stops early neither shrinks the file, nor unwrites any
  // of it, nor grows it beyond the request or the free space.
  predicate PossibleRemains(d: Disk, bytes: nat, remains: Option<File>) {
    match remains
    case None => d.file.None?
    case Some(f) =>
      && SizeOf(d.file) <= f.size <= Max(SizeOf(d.file), bytes)
      && WrittenOf(d.file) <= f.written <= f.size
      && f.size - SizeOf(d.file) <= d.free
  }

  predicate PossibleAnswer(d: Disk, bytes: nat, answer: Answer) {
    match answer.write
    case Broken(remains) => PossibleRemains(d, bytes, remains)
    case _ => Max(SizeOf(d.file), bytes) - SizeOf(d.file) <= d.free
  }

  function WithFile(d: Disk, file: Option<File>): (r: Disk)
    requires SizeOf(file) - SizeOf(d.file) <= d.free
  {
    d.(file := file, free := d.free + SizeOf(d.file) - SizeOf(file))
  }

  // fio's full-size sequential write, and behind it the marker.
  function Prefill(d: Disk, bytes: nat, answer: Answer): Disk
    requires PossibleAnswer(d, bytes, answer)
  {
    match answer.write
    case Broken(remains) => WithFile(d, remains)
    case _ =>
      WithFile(d, Some(File(Max(SizeOf(d.file), bytes), Max(WrittenOf(d.file), bytes)))).(marker := true)
  }

  predicate Refuses(d: Disk, bytes: nat, answer: Answer) {
    var existing := ExistingGib(d.file, answer.sizeProbe);
    existing.Some? && existing.value < bytes / GIB
  }

  predicate Reuses(d: Disk, bytes: nat, answer: Answer) {
    var existing := ExistingGib(d.file, answer.sizeProbe);
    existing.Some? && existing.value >= bytes / GIB && d.marker && answer.markerProbe
  }

  function PrepareDisk(d: Disk, bytes: nat, answer: Answer): Disk
    requires PossibleAnswer(d, bytes, answer)
  {
    if Refuses(d, bytes, answer) || Reuses(d, bytes, answer) then d else Prefill(d, bytes, answer)
  }

  function PrepareVerdict(d: Disk, bytes: nat, answer: Answer): Verdict {
    if Refuses(d, bytes, answer) then Refused
    else if Reuses(d, bytes, answer) || answer.write.Done? then Ready
    else PrefillFailed
  }

  // rm -f on the testfile and the marker, which may fail on either or stop between them.
  function CleanedUp(d: Disk, fileGone: bool, markerGone: bool): Disk {
    var cleaned := if fileGone then WithFile(d, None) else d;
    cleaned.(marker := d.marker && !markerGone)
  }

  class Target {
    var file: Option<File>
    var marker: bool
    var free: nat

    function View(): Disk
      reads this
    {
      Disk(file, marker, free)
    }

    constructor (free: nat)
      ensures View() == Disk(None, false, free)
    {
      file, marker, this.free := None, false, free;
    }

    method Prepare(bytes: nat, answer: Answer) returns (verdict: Verdict)
      requires PossibleAnswer(View(), bytes, answer)
      modifies this
      ensures View() == PrepareDisk(old(View()), bytes, answer)
      ensures verdict == PrepareVerdict(old(View()), bytes, answer)
      ensures var seen, size := old(file.Some? && answer.sizeProbe), old(SizeOf(file));
              && (verdict == Refused <==> seen && size / GIB < bytes / GIB)
              && (verdict == Refused || (seen && old(marker) && answer.markerProbe) ==> View() == old(View()))
              && (verdict != Refused && !(seen && old(marker) && answer.markerProbe) ==>
                    && (verdict == Ready <==> answer.write.Done?)
                    && (marker <==> old(marker) || !answer.write.Broken?))
      ensures verdict == Ready && answer.write.Broken? ==> old(file.Some? && marker) && View() == old(View())
    {
      var required := bytes / GIB;
      var existing := ExistingGib(file, answer.sizeProbe);
      var prefilled := existing.Some? && marker && answer.markerProbe;
      if existing.None? {
        verdict := AllocateTestfile(bytes, answer);
      } else if existing.value < required {
        verdict := Refused;
      } else if !prefilled {
        verdict := AllocateTestfile(bytes, answer);
      } else {
        verdict := Ready;
      }
    }

    method AllocateTestfile(bytes: nat, answer: Answer) returns (verdict: Verdict)
      requires PossibleAnswer(View(), bytes, answer)
      modifies this
      ensures View() == Prefill(old(View()), bytes, answer)
      ensures verdict == if answer.write.Done? then Ready else PrefillFailed
      ensures marker <==> old(marker) || !answer.write.Broken?
      ensures free + SizeOf(file) == old(free + SizeOf(file))
      ensures match answer.write
              case Broken(remains) => file == remains
              case _ => && file.Some? && file.value.size == Max(old(SizeOf(file)), bytes)
                        && file.value.written == Max(old(WrittenOf(file)), bytes)
    {
      var before := SizeOf(file);
      match answer.write {
        case Broken(remains) =>
          file := remains;
        case _ =>
          file := Some(File(Max(SizeOf(file), bytes), Max(WrittenOf(file), bytes)));
          marker := true;
      }
      free := free + before - SizeOf(file);
      verdict := if answer.write.Done? then Ready else PrefillFailed;
    }

    // fileGone, markerGone: what rm achieves; the caller does not look.
    method Cleanup(fileGone: bool, markerGone: bool)
      modifies this
      ensures View() == CleanedUp(old(View()), fileGone, markerGone)
      ensures if fileGone then file.None? && free == old(free + SizeOf(file))
              else file == old(file) && free == old(free)
      ensures marker <==> old(marker) && !markerGone
    {
      if fileGone {
        free := free + SizeOf(file);
        file := None;
      }
      if markerGone {
        marker := false;
      }
    }
  }
}
