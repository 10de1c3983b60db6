/**
 Assembling the files of LOAD DATA statements from a binary log: a first event opens a temporary file for a
 file id, append events add blocks to it, an execute event hands it out.
 */
module LoadLog {
  import opened Wrappers

  type Bytes = seq<bv8>
  type Name = nat

  /** Old logs open a file with a Create_file event, newer ones with Begin_load_query; each has its own execute. */
  datatype Kind = CreateFile | BeginLoad

  datatype Event =
    | First(kind: Kind, id: nat, block: Bytes)
    | Append(id: nat, block: Bytes)
    | Execute(kind: Kind, id: nat)

  // ---------------------------------------------------------------------------------------------
  // The reference: the log alone
  // ---------------------------------------------------------------------------------------------

  /** The file being assembled for `id` after the log: how it was opened, and its content. */
  datatype Pending = Pending(kind: Kind, content: Bytes)

  function Assembled(log: seq<Event>, id: nat): Option<Pending> {
    if log == [] then None
    else
      var p := Assembled(log[..|log| - 1], id);
      match log[|log| - 1]
      case First(kind, id', block) => if id' == id then Some(Pending(kind, block)) else p
      case Append(id', block) =>
        if id' == id && p.Some? then Some(p.value.(content := p.value.content + block)) else p
      case Execute(kind, id') => if id' == id && p.Some? && p.value.kind == kind then None else p
  }

  /** All blocks appended for `id` from position `j` on, in log order. */
  function Appended(log: seq<Event>, id: nat, j: nat): Bytes
    requires j <= |log|
    decreases |log|
  {
    if j == |log| then []
    else
      Appended(log[..|log| - 1], id, j) +
      (match log[|log| - 1] case Append(id', block) => (if id' == id then block else []) case _ => [])
  }

  /** The latest first event for `id` is at `j`, and no execute event of its kind has come since. */
  ghost predicate OpenSince(log: seq<Event>, id: nat, j: nat) {
    && j < |log| && log[j].First? && log[j].id == id
    && forall k :: j < k < |log| ==>
         !(log[k].First? && log[k].id == id) && log[k] != Execute(log[j].kind, id)
  }

  lemma {:induction false} AssembledWhenOpen(log: seq<Event>, id: nat, j: nat)
    requires OpenSince(log, id, j)
    ensures Assembled(log, id) == Some(Pending(log[j].kind, log[j].block + Appended(log, id, j + 1)))
  {
    var before := log[..|log| - 1];
    if j < |before| {
      AssembledWhenOpen(before, id, j);
      var blocks := Appended(before, id, j + 1);
      match log[|log| - 1] {
        case Append(_, block) =>
          assert log[j].block + (blocks + block) == log[j].block + blocks + block;
          assert log[j].block + (blocks + []) == log[j].block + blocks;
        case _ =>
          assert log[j].block + (blocks + []) == log[j].block + blocks;
      }
    } else {
      assert log[j].block + [] == log[j].block;
    }
  }

  lemma {:induction false} OpenWhenAssembled(log: seq<Event>, id: nat) returns (j: nat)
    requires Assembled(log, id).Some?
    ensures OpenSince(log, id, j)
  {
    var before, last := log[..|log| - 1], log[|log| - 1];
    if last.First? && last.id == id {
      j := |log| - 1;
    } else {
      j := OpenWhenAssembled(before, id);
      AssembledWhenOpen(before, id, j);
    }
  }

  /**
   A file is being assembled exactly if some first event is still open, and it holds that event's block
   followed by all blocks appended since.
   */
  lemma AssembledIs(log: seq<Event>, id: nat)
    ensures Assembled(log, id).Some? <==> exists j: nat :: OpenSince(log, id, j)
    ensures forall j: nat :: OpenSince(log, id, j) ==>
              Assembled(log, id) == Some(Pending(log[j].kind, log[j].block + Appended(log, id, j + 1)))
  {
    if Assembled(log, id).Some? {
      var _ := OpenWhenAssembled(log, id);
    }
    forall j: nat | OpenSince(log, id, j)
      ensures Assembled(log, id) == Some(Pending(log[j].kind, log[j].block + Appended(log, id, j + 1)))
    {
      AssembledWhenOpen(log, id, j);
    }
  }

  /** What one more event does to the file of `id`. */
  lemma AssembledAfter(log: seq<Event>, ev: Event, id: nat)
    ensures Assembled(log + [ev], id) ==
      var p := Assembled(log, id);
      if ev.id != id then p
      else match ev
        case First(kind, _, block) => Some(Pending(kind, block))
        case Append(_, block) => if p.Some? then Some(p.value.(content := p.value.content + block)) else None
        case Execute(kind, _) => if p.Some? && p.value.kind == kind then None else p
  {
    assert (log + [ev])[..|log|] == log;
  }

  /** After a file was handed out there is nothing to hand out for its id until another first event. */
  lemma {:induction false} HandedOutOnce(log: seq<Event>, kind: Kind, id: nat, more: seq<Event>)
    requires Assembled(log, id).Some? && Assembled(log, id).value.kind == kind
    requires forall k :: 0 <= k < |more| ==> !(more[k].First? && more[k].id == id)
    ensures Assembled(log + [Execute(kind, id)] + more, id) == None
    decreases |more|
  {
    var done := log + [Execute(kind, id)];
    if more == [] {
      assert done + more == done;
      AssembledAfter(log, Execute(kind, id), id);
    } else {
      var before, last := more[..|more| - 1], more[|more| - 1];
      HandedOutOnce(log, kind, id, before);
      AssembledAfter(done + before, last, id);
      assert done + more == done + before + [last];
    }
  }

  // ---------------------------------------------------------------------------------------------
  // The processor
  // ---------------------------------------------------------------------------------------------

  /** A slot of the file-name array; a zeroed slot is `Empty`. */
  datatype Record = Empty | Live(fname: Name, kind: Kind)

  function Slot(fileNames: seq<Record>, id: nat): Record {
    if id < |fileNames| then fileNames[id] else Empty
  }

  /** A record agrees with what the log says about its file. */
  ghost predicate RecordOk(r: Record, files: map<Name, Bytes>, handedOut: map<Name, Bytes>, p: Option<Pending>) {
    match p
    case None => r == Empty
    case Some(p) =>
      r.Live? && r.kind == p.kind && r.fname in files && files[r.fname] == p.content && r.fname !in handedOut
  }

  /** The slots agree with the log, no two share a file, and files handed out are as they were then. */
  ghost predicate Ok(fileNames: seq<Record>, files: map<Name, Bytes>, log: seq<Event>, handedOut: map<Name, Bytes>) {
    && (forall id: nat :: RecordOk(Slot(fileNames, id), files, handedOut, Assembled(log, id)))
    && (forall i: nat, j: nat :: i != j && Slot(fileNames, i).Live? && Slot(fileNames, j).Live? ==>
          Slot(fileNames, i).fname != Slot(fileNames, j).fname)
    && (forall n :: n in handedOut ==> n in files && files[n] == handedOut[n])
  }

  /** An event for `id` that touches only the file of its slot leaves the other slots in order. */
  lemma OthersKept(names: seq<Record>, names': seq<Record>, files: map<Name, Bytes>, files': map<Name, Bytes>,
                   log: seq<Event>, ev: Event, out: map<Name, Bytes>, out': map<Name, Bytes>, i: nat)
    requires Ok(names, files, log, out) && i != ev.id && Slot(names', i) == Slot(names, i)
    requires forall n :: n in files && !(Slot(names, ev.id).Live? && Slot(names, ev.id).fname == n) ==>
               n in files' && files'[n] == files[n]
    requires forall n :: n in out' && n !in out ==> Slot(names, ev.id).Live? && Slot(names, ev.id).fname == n
    ensures RecordOk(Slot(names', i), files', out', Assembled(log + [ev], i))
  {
    AssembledAfter(log, ev, i);
    assert RecordOk(Slot(names, i), files, out, Assembled(log, i));
  }

  class LoadLogProcessor {
    var fileNames: seq<Record>
    var files: map<Name, Bytes>
    ghost var log: seq<Event>
    ghost var handedOut: map<Name, Bytes>   // every file handed out, with its content at that time

    ghost predicate Valid()
      reads this
    {
      Ok(fileNames, files, log, handedOut)
    }

    constructor ()
      ensures Valid() && log == [] && handedOut == map[]
    {
      fileNames, files, log, handedOut := [], map[], [], map[];
    }

    /** `set_dynamic`: slots between the old end and the new one are zeroed. */
    method SetSlot(id: nat, r: Record)
      modifies this`fileNames
      ensures forall i: nat :: Slot(fileNames, i) == if i == id then r else Slot(old(fileNames), i)
    {
      if id >= |fileNames| {
        fileNames := fileNames + seq(id + 1 - |fileNames|, _ => Empty);
      }
      fileNames := fileNames[id := r];
    }

    /** `process_first_event`: a new file, under a name no file has, takes the first block. */
    method ProcessFirst(kind: Kind, id: nat, block: Bytes, name: Name)
      requires Valid() && name !in files
      modifies this
      ensures Valid() && log == old(log) + [First(kind, id, block)] && handedOut == old(handedOut)
    {
      ghost var ev := First(kind, id, block);
      SetSlot(id, Live(name, kind));
      files := files[name := block];
      log := log + [ev];
      AssembledAfter(old(log), ev, id);
      forall i: nat | i != id
        ensures RecordOk(Slot(fileNames, i), files, handedOut, Assembled(log, i))
        ensures Slot(fileNames, i).Live? ==> Slot(fileNames, i).fname != name
      {
        OthersKept(old(fileNames), fileNames, old(files), files, old(log), ev, handedOut, handedOut, i);
        assert RecordOk(Slot(old(fileNames), i), old(files), handedOut, Assembled(old(log), i));
      }
    }

    /** `process(Append_block_log_event)`: without a live record the event is ignored. */
    method ProcessAppend(id: nat, block: Bytes) returns (ignored: bool)
      requires Valid()
      modifies this
      ensures Valid() && log == old(log) + [Append(id, block)] && handedOut == old(handedOut)
      ensures ignored <==> Assembled(old(log), id) == None
      ensures ignored ==> files == old(files) && fileNames == old(fileNames)
    {
      ghost var ev := Append(id, block);
      assert RecordOk(Slot(fileNames, id), files, handedOut, Assembled(log, id));
      ignored := id >= |fileNames| || fileNames[id].Empty?;
      if !ignored {
        var fname := fileNames[id].fname;
        files := files[fname := files[fname] + block];
      }
      log := log + [ev];
      AssembledAfter(old(log), ev, id);
      forall i: nat | i != id
        ensures RecordOk(Slot(fileNames, i), files, handedOut, Assembled(log, i))
      {
        OthersKept(old(fileNames), fileNames, old(files), files, old(log), ev, handedOut, handedOut, i);
      }
    }

    /**
     `grab_event` and `grab_fname`: a live record of the matching kind is handed out and its slot zeroed.
     The file holds exactly what was assembled, it was never handed out before, and it stays as it is.
     */
    method ProcessExecute(kind: Kind, id: nat) returns (r: Option<Name>)
      requires Valid()
      modifies this
      ensures Valid() && log == old(log) + [Execute(kind, id)] && files == old(files)
      ensures var p := Assembled(old(log), id);
        if p.Some? && p.value.kind == kind then
          && r.Some? && r.value in files && files[r.value] == p.value.content
          && r.value !in old(handedOut) && handedOut == old(handedOut)[r.value := p.value.content]
        else r == None && handedOut == old(handedOut) && forall i: nat :: Slot(fileNames, i) == Slot(old(fileNames), i)
    {
      ghost var ev := Execute(kind, id);
      assert RecordOk(Slot(fileNames, id), files, handedOut, Assembled(log, id));
      r := None;
      if id < |fileNames| && fileNames[id].Live? && fileNames[id].kind == kind {
        r := Some(fileNames[id].fname);
        SetSlot(id, Empty);
        handedOut := handedOut[r.value := files[r.value]];
      }
      log := log + [ev];
      AssembledAfter(old(log), ev, id);
      forall i: nat | i != id
        ensures RecordOk(Slot(fileNames, i), files, handedOut, Assembled(log, i))
      {
        OthersKept(old(fileNames), fileNames, files, files, old(log), ev, old(handedOut), handedOut, i);
      }
    }
  }
}
