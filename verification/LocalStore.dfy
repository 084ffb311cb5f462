/** Storing a stream of bytes under an object key: file/localstore.go, and the readers it is
    fed through. A reader delivers its bytes in chunks of any size and ends with the end of the
    file, with io.ErrUnexpectedEOF or with another error; every file operation may fail. The
    store runs one call at a time.
 */
module LocalStore {
  import opened Wrappers
  import opened Text
  import opened ObjectKeys

  /** How a reader says that no more bytes come: io.EOF, io.ErrUnexpectedEOF, any other error. */
  datatype Ending = Complete | Truncated | Failed

  datatype Status = More | Ended(ending: Ending)

  datatype Result<+T> =
    | Ok(value: T) | InvalidKey | NotFound | Forbidden | InvalidFile | TypeNotAllowed | TooLarge | Unavailable

  function Min(a: nat, b: nat): nat {
    if a < b then a else b
  }

  // ---------------------------------------------------------------------------------------
  // Readers
  // ---------------------------------------------------------------------------------------

  function Flatten(chunks: seq<seq<Byte>>): seq<Byte> {
    if chunks == [] then [] else chunks[0] + Flatten(chunks[1..])
  }

  function Weight(chunks: seq<seq<Byte>>): nat {
    if chunks == [] then 0 else |chunks[0]| + 1 + Weight(chunks[1..])
  }

  /** Whether reading `want` bytes, and no more, makes the reader say how it ends. */
  function EndsWithin(chunks: seq<seq<Byte>>, early: bool, want: nat): bool {
    want > 0 &&
    (chunks == [] ||
     (|chunks[0]| <= want &&
      ((|chunks| == 1 && early) || EndsWithin(chunks[1..], early, want - |chunks[0]|))))
  }

  /** A caller's reader. The last chunk may come together with the ending, or before it. The
      reader says `first` when its bytes run out, and `later` whenever it is asked again. */
  class Stream {
    var chunks: seq<seq<Byte>>
    var reported: bool
    const first: Ending
    const later: Ending
    const early: bool

    constructor (chunks: seq<seq<Byte>>, first: Ending, later: Ending, early: bool)
      ensures this.chunks == chunks && this.first == first && this.later == later && this.early == early && !reported
    {
      this.chunks, this.first, this.later, this.early, reported := chunks, first, later, early, false;
    }

    ghost function Data(): seq<Byte>
      reads this
    {
      Flatten(chunks)
    }

    ghost function Size(): nat
      reads this
    {
      Weight(chunks)
    }

    /** What the reader says next when its bytes have run out. */
    function Ending(): Ending
      reads this
    {
      if reported then later else first
    }

    method Read(max: nat) returns (bytes: seq<Byte>, status: Status)
      requires max >= 1
      modifies this
      ensures |bytes| <= max && bytes + Data() == old(Data())
      ensures status == More ==> Size() < old(Size()) && reported == old(reported)
      ensures status == More ==>
        (EndsWithin(old(chunks), early, max) <==> EndsWithin(chunks, early, max - |bytes|))
      ensures status != More ==> status == Ended(old(Ending())) && reported && Data() == [] && Size() == 0
      ensures status != More ==> EndsWithin(old(chunks), early, max)
    {
      if chunks == [] {
        status := Ended(Ending());
        reported := true;
        return [], status;
      }
      var next := chunks[0];
      if |next| > max {
        bytes, status := next[..max], More;
        chunks := [next[max..]] + chunks[1..];
        assert next == bytes + next[max..];
        return;
      }
      bytes := next;
      chunks := chunks[1..];
      status := More;
      if chunks == [] && early {
        status := Ended(Ending());
        reported := true;
      }
    }
  }

  /** The header already read, then the rest of the caller's reader (io.MultiReader). */
  class Replay {
    var header: seq<Byte>
    const content: Stream

    constructor (header: seq<Byte>, content: Stream)
      ensures this.header == header && this.content == content
    {
      this.header, this.content := header, content;
    }

    ghost function Data(): seq<Byte>
      reads this, content
    {
      header + content.Data()
    }

    ghost function Size(): nat
      reads this, content
    {
      |header| + content.Size()
    }

    method Read(max: nat) returns (bytes: seq<Byte>, status: Status)
      requires max >= 1
      modifies this, content
      ensures |bytes| <= max && bytes + Data() == old(Data())
      ensures status == More ==> Size() < old(Size()) && content.Ending() == old(content.Ending())
      ensures status != More ==> status == Ended(old(content.Ending())) && Data() == []
    {
      if header != [] {
        var n := Min(max, |header|);
        bytes, status := header[..n], More;
        header := header[n..];
      } else {
        bytes, status := content.Read(max);
      }
    }
  }

  // ---------------------------------------------------------------------------------------
  // The directory and its faults
  // ---------------------------------------------------------------------------------------

  datatype Entry = Regular(bytes: seq<Byte>) | Special

  /** What goes wrong during one call: the operations that fail, the writes that stop after
      some bytes, and the reads before which the context is found cancelled. */
  datatype Faults = Faults(mkdir: bool, create: bool, write: nat -> Option<nat>, cancelled: nat -> bool,
                           sync: bool, close: bool, rename: bool, remove: bool)

  ghost predicate Smooth(faults: Faults) {
    && !faults.mkdir && !faults.create && !faults.sync && !faults.close && !faults.rename && !faults.remove
    && (forall k: nat :: faults.write(k).None?)
    && (forall k: nat :: !faults.cancelled(k))
  }

  /** The hidden file next to the object, with the path cleaned by path.Join. */
  function Temporary(key: ObjectKey): string {
    Clean(PrintUuid(key.owner) + "/" + ("." + PrintUuid(key.item) + ".tmp"))
  }

  /** The temporary file is never the file of an object. */
  lemma TemporaryIsNoObject(key: ObjectKey, other: ObjectKey)
    ensures Temporary(key) != Print(other)
  {
    UuidText(key.owner);
    UuidText(key.item);
    PrintedUuidShape(other.owner);
    PrintedUuidShape(other.item);
    var name := "." + PrintUuid(key.item) + ".tmp";
    CleanTwo(PrintUuid(key.owner), name);
    var path := PrintUuid(key.owner) + "/" + name;
    assert path[37] == '.';
    assert UuidChar(PrintUuid(other.item)[0]);
    assert Print(other)[37] == PrintUuid(other.item)[0];
  }

  /** Exactly one file differs. */
  predicate Stored(before: map<string, Entry>, after: map<string, Entry>, path: string, bytes: seq<Byte>) {
    after == before[path := Regular(bytes)]
  }

  /** No file differs, except a temporary one that could not be removed. */
  predicate Restored(before: map<string, Entry>, after: map<string, Entry>, temporary: string, faults: Faults) {
    after == before || (faults.remove && temporary !in before && after - {temporary} == before)
  }

  /** What gets written before a write stops. */
  function Part(bytes: seq<Byte>, stop: Option<nat>): seq<Byte> {
    if stop.Some? then bytes[..Min(stop.value, |bytes|)] else bytes
  }

  lemma MoreTaken(taken: seq<Byte>, bytes: seq<Byte>, rest: seq<Byte>, stop: Option<nat>)
    ensures taken + (bytes + rest) == taken + bytes + rest
    ensures bytes == [] ==> taken + bytes == taken
    ensures taken + Part(bytes, stop) <= taken + bytes + rest
    ensures |Part(bytes, stop)| <= |bytes| && (stop.None? ==> Part(bytes, stop) == bytes)
  {
  }

  /** A file can be renamed to this path. */
  predicate Free(entries: map<string, Entry>, path: string) {
    path in entries ==> entries[path].Regular?
  }

  /** The store is started, the key is valid, and neither of its two names is taken. */
  predicate Ready(active: bool, entries: map<string, Entry>, key: ObjectKey) {
    active && Validate(key) && Temporary(key) !in entries && Free(entries, Print(key))
  }

  class LocalStore {
    var active: bool
    var owners: set<string>
    var entries: map<string, Entry>

    constructor ()
      ensures !active && owners == {} && entries == map[]
    {
      active, owners, entries := false, {}, map[];
    }

    method Start()
      modifies this`active
      ensures active
    {
      active := true;
    }

    method Stop()
      modifies this`active
      ensures !active
    {
      active := false;
    }

    /** A write to a file that holds `taken`: all of the bytes, or the first few and an error. */
    method Write(path: string, taken: seq<Byte>, bytes: seq<Byte>, stop: Option<nat>)
      returns (more: seq<Byte>, ok: bool)
      modifies this`entries
      ensures ok <==> stop.None?
      ensures more == taken + Part(bytes, stop) && entries == old(entries)[path := Regular(more)]
    {
      more, ok := taken + Part(bytes, stop), stop.None?;
      entries := entries[path := Regular(more)];
    }

    /** io.CopyBuffer from a reader limited to `limit` bytes into the temporary file. */
    method Copy(path: string, content: Replay, limit: nat, buffer: nat, faults: Faults)
      returns (taken: seq<Byte>, ok: bool)
      requires buffer >= 1 && path in entries && entries[path] == Regular([])
      modifies this`entries, content, content.content
      ensures Stored(old(entries), entries, path, taken)
      ensures |taken| <= limit && taken <= old(content.Data())
      ensures ok && |taken| < limit ==> taken == old(content.Data()) && old(content.content.Ending()) == Complete
      ensures !ok && Smooth(faults) ==> old(content.content.Ending()) != Complete
      ensures ok && limit > 0 ==> !faults.cancelled(0)
    {
      taken := [];
      assert entries == old(entries)[path := Regular([])];
      ghost var data := content.Data();
      var turn: nat := 0;
      while |taken| < limit
        invariant |taken| <= limit && taken + content.Data() == data
        invariant content.content.Ending() == old(content.content.Ending())
        invariant Stored(old(entries), entries, path, taken)
        invariant turn > 0 ==> !faults.cancelled(0)
        invariant turn == 0 ==> taken == []
        decreases content.Size()
      {
        if faults.cancelled(turn) {
          return taken, false;
        }
        var bytes, status := content.Read(Min(buffer, limit - |taken|));
        MoreTaken(taken, bytes, content.Data(), faults.write(turn));
        if bytes != [] {
          taken, ok := Write(path, taken, bytes, faults.write(turn));
          if !ok {
            return;
          }
        }
        if status != More {
          return taken, status == Ended(Complete);
        }
        turn := turn + 1;
      }
      ok := true;
    }

    /** From the creation of the temporary file to the end of the call. */
    method Fill(temporary: string, destination: string, content: Replay, maxBytes: nat, buffer: nat, faults: Faults)
      returns (r: Result<nat>)
      requires buffer >= 1 && temporary !in entries && temporary != destination
      modifies this`entries, content, content.content
      ensures r.Ok? ==> old(content.content.Ending()) == Complete && r.value == |old(content.Data())| <= maxBytes
      ensures r.Ok? ==> Stored(old(entries), entries, destination, old(content.Data()))
      ensures !r.Ok? ==> Restored(old(entries), entries, temporary, faults)
      ensures r == TooLarge ==> |old(content.Data())| > maxBytes
      ensures r.Ok? || r == TooLarge || r == Unavailable
      ensures Smooth(faults) && old(content.content.Ending()) == Complete && |old(content.Data())| > maxBytes
        ==> r == TooLarge
      ensures r.Ok? ==> Free(old(entries), destination)
      ensures r.Ok? ==> !faults.sync && !faults.close && !faults.rename && !faults.cancelled(0)
      ensures (Smooth(faults) && Free(old(entries), destination) && old(content.content.Ending()) == Complete
               && |old(content.Data())| <= maxBytes) ==> r.Ok?
    {
      entries := entries[temporary := Regular([])];
      var taken, ok := Copy(temporary, content, maxBytes + 1, buffer, faults);
      assert entries == old(entries)[temporary := Regular(taken)];
      r := Unavailable;
      if ok && |taken| > maxBytes {
        r := TooLarge;
      } else if ok && !faults.sync && !faults.close {
        var blocked := destination in entries && entries[destination].Special?;
        if !faults.rename && !blocked {
          entries := entries[destination := Regular(taken)] - {temporary};
          assert entries == old(entries)[destination := Regular(taken)];
          return Ok(|taken|);
        }
      }
      if !faults.remove {
        entries := entries - {temporary};
        assert entries == old(entries);
      }
      assert entries - {temporary} == old(entries);
    }

    /** From the creation of the owner's directory on. */
    method PutNamed(owner: string, temporary: string, destination: string, content: Replay, maxBytes: nat, buffer: nat,
                    faults: Faults)
      returns (r: Result<nat>)
      requires buffer >= 1 && temporary != destination
      modifies this`owners, this`entries, content, content.content
      ensures r.Ok? ==> old(content.content.Ending()) == Complete && r.value == |old(content.Data())| <= maxBytes
      ensures r.Ok? ==> Stored(old(entries), entries, destination, old(content.Data()))
      ensures !r.Ok? ==> Restored(old(entries), entries, temporary, faults)
      ensures r == TooLarge ==> |old(content.Data())| > maxBytes
      ensures r.Ok? || r == TooLarge || r == Unavailable
      ensures (Smooth(faults) && temporary !in old(entries) && old(content.content.Ending()) == Complete
               && |old(content.Data())| > maxBytes) ==> r == TooLarge
      ensures r.Ok? ==> temporary !in old(entries) && Free(old(entries), destination)
      ensures r.Ok? ==>
        && !faults.mkdir && !faults.create && !faults.sync && !faults.close && !faults.rename
        && !faults.cancelled(0) && owners == old(owners) + {owner}
      ensures (Smooth(faults) && temporary !in old(entries) && Free(old(entries), destination)
               && old(content.content.Ending()) == Complete && |old(content.Data())| <= maxBytes) ==> r.Ok?
    {
      if faults.mkdir {
        return Unavailable;
      }
      owners := owners + {owner};
      if faults.create || temporary in entries {
        return Unavailable;
      }
      r := Fill(temporary, destination, content, maxBytes, buffer, faults);
    }

    /** A call that succeeds has stored exactly the reader's bytes, and nothing else changed; a
        call that fails has changed no file, unless the removal of its temporary file failed.
        Without faults it succeeds exactly when the store is ready for the key and the reader
        ends within the limit. */
    method Put(key: ObjectKey, content: Replay, maxBytes: int, buffer: nat, faults: Faults) returns (r: Result<nat>)
      requires buffer >= 1
      modifies this`owners, this`entries, content, content.content
      ensures r.Ok? ==> old(content.content.Ending()) == Complete && r.value == |old(content.Data())| <= maxBytes
      ensures r.Ok? ==> Stored(old(entries), entries, Print(key), old(content.Data()))
      ensures r.Ok? ==> entries == old(entries)[Print(key) := Regular(old(content.Data()))]
      ensures !r.Ok? && !faults.remove ==> entries == old(entries)
      ensures !r.Ok? ==> forall p | p in old(entries) :: p in entries && entries[p] == old(entries)[p]
      ensures !r.Ok? ==> forall p | p in entries :: p in old(entries) || p == Temporary(key)
      ensures !r.Ok? ==> Restored(old(entries), entries, Temporary(key), faults)
      ensures r == TooLarge ==> |old(content.Data())| > maxBytes >= 1
      ensures r == InvalidKey <==> !Validate(key) || maxBytes < 1
      ensures r.Ok? || r == InvalidKey || r == TooLarge || r == Unavailable
      ensures (Smooth(faults) && active && Validate(key) && Temporary(key) !in old(entries) && maxBytes >= 1
               && old(content.content.Ending()) == Complete && |old(content.Data())| > maxBytes) ==> r == TooLarge
      ensures r.Ok? ==> Ready(active, old(entries), key) && maxBytes >= 1
      ensures r.Ok? ==>
        && !faults.mkdir && !faults.create && !faults.sync && !faults.close && !faults.rename
        && !faults.cancelled(0) && owners == old(owners) + {PrintUuid(key.owner)}
      ensures (Smooth(faults) && Ready(active, old(entries), key) && maxBytes >= 1
               && old(content.content.Ending()) == Complete && |old(content.Data())| <= maxBytes) ==> r.Ok?
    {
      if !Validate(key) || maxBytes < 1 {
        return InvalidKey;
      }
      if !active {
        return Unavailable;
      }
      TemporaryIsNoObject(key, key);
      r := PutNamed(PrintUuid(key.owner), Temporary(key), Print(key), content, maxBytes, buffer, faults);
    }

    /** The bytes stored under a key. */
    method Open(key: ObjectKey) returns (r: Result<seq<Byte>>)
      ensures r == Opened(active, entries, key)
      ensures r.Ok? <==> Validate(key) && active && Print(key) in entries && entries[Print(key)].Regular?
      ensures r.Ok? ==> entries[Print(key)] == Regular(r.value)
      ensures r == InvalidKey <==> !Validate(key)
      ensures r == Unavailable <==> Validate(key) && !active
    {
      if !Validate(key) {
        return InvalidKey;
      }
      if !active {
        return Unavailable;
      }
      var path := Print(key);
      if path !in entries || entries[path].Special? {
        return NotFound;
      }
      return Ok(entries[path].bytes);
    }

    /** Removes the file of a key and nothing else. */
    method Delete(key: ObjectKey, faults: Faults) returns (r: Result<()>)
      modifies this`entries
      ensures r.Ok? ==> entries == old(entries) - {Print(key)}
      ensures !r.Ok? ==> entries == old(entries)
      ensures r == NotFound <==> Validate(key) && active && Print(key) !in old(entries)
      ensures r.Ok? <==> Validate(key) && active && Print(key) in old(entries) && !faults.remove
      ensures r != Forbidden
    {
      if !Validate(key) {
        return InvalidKey;
      }
      if !active {
        return Unavailable;
      }
      var path := Print(key);
      if path !in entries {
        return NotFound;
      }
      if faults.remove {
        return Unavailable;
      }
      entries := entries - {path};
      return Ok(());
    }
  }

  function Opened(active: bool, entries: map<string, Entry>, key: ObjectKey): Result<seq<Byte>> {
    if !Validate(key) then InvalidKey
    else if !active then Unavailable
    else if Print(key) in entries && entries[Print(key)].Regular? then Ok(entries[Print(key)].bytes)
    else NotFound
  }
}
