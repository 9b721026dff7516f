/** The single-file store behind the budget: an in-memory map that is flushed as a whole. */
module StateStore {
  import opened Common

  /** What the file system can hold at a path: the serialised map, or a torn write. */
  datatype Content<S> = Whole(entries: map<string, S>) | Torn

  /** What happens to one flush. A failed write leaves a torn temporary file behind. */
  datatype Flush = WriteFails | RenameFails | Succeeds

  class Disk<S> {
    var file: Option<Content<S>>
    var temps: map<nat, Content<S>>

    constructor(file: Option<Content<S>>)
      ensures this.file == file && temps == map[]
    {
      this.file := file;
      temps := map[];
    }

    method Write(seqNo: nat, entries: map<string, S>, succeeds: bool) returns (ok: bool)
      modifies this`temps
      ensures ok == succeeds && seqNo in temps
      ensures ok ==> temps[seqNo] == Whole(entries)
    {
      ok := succeeds;
      temps := temps[seqNo := if ok then Whole(entries) else Torn];
    }

    /** Atomic: the target is replaced as a whole or not at all. */
    method Rename(seqNo: nat, succeeds: bool) returns (ok: bool)
      requires seqNo in temps
      modifies this
      ensures ok == succeeds
      ensures file == if ok then Some(old(temps)[seqNo]) else old(file)
    {
      ok := succeeds;
      if ok {
        file := Some(temps[seqNo]);
        temps := temps - {seqNo};
      }
    }
  }

  /** What a store that has just started would serve. */
  function Loadable<S>(file: Option<Content<S>>): map<string, S> {
    if file.Some? && file.value.Whole? then file.value.entries else map[]
  }

  function Lookup<S>(entries: map<string, S>, key: string): Option<S> {
    if key in entries then Some(entries[key]) else None
  }

  class FileStateStore<S> {
    const disk: Disk<S>
    var cache: map<string, S>
    var loaded: bool
    var writeSeq: nat

    constructor(disk: Disk<S>)
      ensures this.disk == disk && !loaded
    {
      this.disk := disk;
      cache := map[];
      loaded := false;
      writeSeq := 0;
    }

    /** The entries that reads see: the memory once loaded, the file before that. */
    ghost function View(): map<string, S>
      reads this, disk
    {
      if loaded then cache else Loadable(disk.file)
    }

    method Load()
      modifies this
      ensures loaded && cache == old(View())
    {
      if !loaded {
        loaded := true;
        cache := map[];
        if disk.file.Some? && disk.file.value.Whole? {
          cache := disk.file.value.entries;
        }
      }
    }

    method Get(key: string) returns (r: Option<S>)
      modifies this
      ensures r == Lookup(old(View()), key)
      ensures loaded && View() == old(View())
    {
      Load();
      r := if key in cache then Some(cache[key]) else None;
    }

    /**
     * Reads see the new entry whatever happens to the flush; the file is either left alone or
     * replaced by everything the store holds, never torn.
     */
    method Set(key: string, state: S, flush: Flush) returns (ok: bool)
      modifies this, disk
      ensures ok <==> flush.Succeeds?
      ensures loaded && View() == old(View())[key := state]
      ensures disk.file == if flush.Succeeds? then Some(Whole(View())) else old(disk.file)
    {
      Load();
      cache := cache[key := state];
      var tmp := writeSeq;
      writeSeq := writeSeq + 1;
      ok := disk.Write(tmp, cache, flush != WriteFails);
      if !ok {
        return;
      }
      ok := disk.Rename(tmp, flush != RenameFails);
    }
  }

  // ------------------------------------------------------------------ crashes

  datatype Put<S> = Put(key: string, state: S, flush: Flush)

  /** The entries in memory after a run of writes. */
  function Memory<S>(start: map<string, S>, puts: seq<Put<S>>): map<string, S> {
    if puts == [] then start
    else Memory(start, puts[..|puts| - 1])[puts[|puts| - 1].key := puts[|puts| - 1].state]
  }

  /** The file after a run of writes, as Set leaves it. */
  function FileAfter<S>(file: Option<Content<S>>, puts: seq<Put<S>>): Option<Content<S>> {
    if puts == [] then file
    else if puts[|puts| - 1].flush.Succeeds? then Some(Whole(Memory(Loadable(file), puts)))
    else FileAfter(file, puts[..|puts| - 1])
  }

  /**
   * A process that dies after any run of writes is restarted with exactly what the memory held
   * right after the last successful flush, and nothing at all is lost when the last flush worked.
   */
  lemma {:induction false} RestartSeesLastFlush<S>(file: Option<Content<S>>, puts: seq<Put<S>>) returns (n: nat)
    ensures n <= |puts|
    ensures Loadable(FileAfter(file, puts)) == Memory(Loadable(file), puts[..n])
    ensures n > 0 ==> puts[n - 1].flush.Succeeds?
    ensures forall k :: n <= k < |puts| ==> !puts[k].flush.Succeeds?
  {
    if puts == [] {
      n := 0;
    } else if puts[|puts| - 1].flush.Succeeds? {
      n := |puts|;
      assert puts[..n] == puts;
    } else {
      var init := puts[..|puts| - 1];
      n := RestartSeesLastFlush(file, init);
      assert init[..n] == puts[..n];
    }
  }
}
