/** Uploading and opening files: file/service.go over the local store. The content sniffer and
    the identifier generator are parameters.
 */
module FileService {
  import opened Wrappers
  import opened Text
  import opened ObjectKeys
  import opened LocalStore

  const SNIFF_BYTES: nat := 512

  /** uuid.Nil. */
  const NIL_UUID: Uuid := [0, 0, 0, 0, 0, 0, 0, 0, 0, 0, 0, 0, 0, 0, 0, 0]

  lemma NilIsZero(u: Uuid)
    ensures u == NIL_UUID <==> forall i | 0 <= i < 16 :: u[i] == 0
  {
  }

  datatype Limits = Limits(imageMaxBytes: nat, videoEnabled: bool, videoMaxBytes: nat)

  datatype Uploaded = Uploaded(key: ObjectKey, contentType: string, size: nat)

  // ---------------------------------------------------------------------------------------
  // Media types
  // ---------------------------------------------------------------------------------------

  /** The sniffed type without its parameters. */
  function MediaType(sniffed: string): string {
    Lower(Trim(Split(sniffed, ';')[0], IsSpace))
  }

  /** Space around the type, its case, and what follows a semicolon make no difference. */
  lemma MediaTypeExactly(before: string, core: string, after: string, parameters: string)
    requires forall i | 0 <= i < |before| :: before[i] as int in {9, 10, 11, 12, 13, 32}
    requires forall i | 0 <= i < |after| :: after[i] as int in {9, 10, 11, 12, 13, 32}
    requires core != "" ==>
      core[0] as int !in {9, 10, 11, 12, 13, 32} && core[|core| - 1] as int !in {9, 10, 11, 12, 13, 32}
    requires ';' !in core
    ensures MediaType(before + (core + after) + ";" + parameters) == MediaType(before + (core + after))
    ensures var m := MediaType(before + (core + after));
            && |m| == |core|
            && forall i | 0 <= i < |core| ::
                 m[i] as int == if 65 <= core[i] as int <= 90 then core[i] as int + 32 else core[i] as int
  {
    var first := before + (core + after);
    assert ';' !in before && ';' !in after;
    SplitFirst(first, parameters, ';');
    SplitNone(first, ';');
    FoldedExactly(before, core, after);
  }

  /** The extension and the size limit of an accepted media type. */
  function AllowedType(limits: Limits, mediaType: string): Option<(string, nat)> {
    if mediaType == "image/jpeg" then Some(("jpg", limits.imageMaxBytes))
    else if mediaType == "image/png" then Some(("png", limits.imageMaxBytes))
    else if mediaType == "image/gif" then Some(("gif", limits.imageMaxBytes))
    else if mediaType == "image/webp" then Some(("webp", limits.imageMaxBytes))
    else if mediaType == "video/mp4" && limits.videoEnabled then Some(("mp4", limits.videoMaxBytes))
    else if mediaType == "video/webm" && limits.videoEnabled then Some(("webm", limits.videoMaxBytes))
    else None
  }

  /** The media type an extension is served with. */
  function TypeOf(ext: string): Option<string> {
    if ext == "jpg" then Some("image/jpeg")
    else if ext == "png" then Some("image/png")
    else if ext == "gif" then Some("image/gif")
    else if ext == "webp" then Some("image/webp")
    else if ext == "mp4" then Some("video/mp4")
    else if ext == "webm" then Some("video/webm")
    else None
  }

  /** A media type that is accepted is the type its extension is served with. */
  lemma AcceptedIsServed(limits: Limits, mediaType: string)
    requires AllowedType(limits, mediaType).Some?
    ensures AllowedExtension(AllowedType(limits, mediaType).value.0)
    ensures TypeOf(AllowedType(limits, mediaType).value.0) == Some(mediaType)
  {
  }

  // ---------------------------------------------------------------------------------------
  // Uploading
  // ---------------------------------------------------------------------------------------

  function Head(data: seq<Byte>): seq<Byte> {
    data[..Min(SNIFF_BYTES, |data|)]
  }

  /** What the store hears at the end: the reader's first ending, or a later one if the first was
      heard while the header was read. */
  function HeardByStore(chunks: seq<seq<Byte>>, early: bool, first: Ending, later: Ending): Ending {
    if EndsWithin(chunks, early, SNIFF_BYTES) then later else first
  }

  /** The reader did not end with io.EOF, said so only while the header was read, and says io.EOF
      when it is asked again. */
  predicate EndingLost(chunks: seq<seq<Byte>>, early: bool, first: Ending, later: Ending) {
    first != Complete && later == Complete && EndsWithin(chunks, early, SNIFF_BYTES)
  }

  /** The ending is heard with the header exactly if the content is shorter than the header, or
      just as long and its last bytes come together with the ending. */
  lemma {:induction false} HeardWithHeader(chunks: seq<seq<Byte>>, early: bool, want: nat)
    requires want > 0
    ensures EndsWithin(chunks, early, want) <==>
      |Flatten(chunks)| < want
      || (|Flatten(chunks)| == want && early && chunks != [] && chunks[|chunks| - 1] != [])
    decreases |chunks|
  {
    if chunks != [] {
      if |chunks[0]| < want {
        HeardWithHeader(chunks[1..], early, want - |chunks[0]|);
      } else if |chunks| > 1 {
        EmptyTail(chunks[1..]);
      }
    }
  }

  /** Chunks without bytes are all empty. */
  lemma {:induction false} EmptyTail(chunks: seq<seq<Byte>>)
    requires chunks != []
    ensures Flatten(chunks) == [] ==> chunks[|chunks| - 1] == []
    decreases |chunks|
  {
    if |chunks| > 1 {
      EmptyTail(chunks[1..]);
    }
  }

  /** io.ReadFull into the header.  Of a reader that ends before the header is full, what it has
      delivered is the header, unless it ends with an error other than io.ErrUnexpectedEOF. */
  method ReadHeader(content: Stream) returns (header: seq<Byte>, failed: bool)
    modifies content
    ensures header == Head(old(content.Data())) && header + content.Data() == old(content.Data())
    ensures failed <==> |header| < SNIFF_BYTES && old(content.Ending()) == Failed
    ensures content.Ending() == HeardByStore(old(content.chunks), content.early, old(content.Ending()), content.later)
  {
    header := [];
    var status := More;
    while |header| < SNIFF_BYTES && status == More
      invariant |header| <= SNIFF_BYTES && header + content.Data() == old(content.Data())
      invariant status == More ==> content.reported == old(content.reported)
      invariant status == More ==>
        (EndsWithin(content.chunks, content.early, SNIFF_BYTES - |header|)
         <==> EndsWithin(old(content.chunks), content.early, SNIFF_BYTES))
      invariant status != More ==> status == Ended(old(content.Ending())) && content.reported && content.Data() == []
      invariant status != More ==> EndsWithin(old(content.chunks), content.early, SNIFF_BYTES)
      decreases content.Size(), status == More
    {
      var bytes;
      bytes, status := content.Read(SNIFF_BYTES - |header|);
      assert header + bytes + content.Data() == old(content.Data());
      header := header + bytes;
    }
    failed := |header| < SNIFF_BYTES && status == Ended(Failed);
  }

  /** The content this upload would store, or the reason why there is none. */
  function Plan(limits: Limits, detect: seq<Byte> -> string, data: seq<Byte>, first: Ending)
    : Result<(string, string, nat)>
  {
    if |data| < SNIFF_BYTES && first == Failed then Unavailable
    else if data == [] then InvalidFile
    else
      var mediaType := MediaType(detect(Head(data)));
      match AllowedType(limits, mediaType)
      case None => TypeNotAllowed
      case Some((ext, maxBytes)) => Ok((mediaType, ext, maxBytes))
  }

  function NewKey(owner: Uuid, id: Uuid, plan: (string, string, nat)): ObjectKey {
    ObjectKey(owner, id, plan.1)
  }

  /** Which upload a result reports. */
  predicate Reports(r: Uploaded, owner: Uuid, id: Uuid, plan: (string, string, nat), data: seq<Byte>) {
    r == Uploaded(ObjectKey(owner, id, plan.1), plan.0, |data|) && |data| <= plan.2
  }

  /** What Plan accepts, and what it refuses, in terms of the sniffed type. */
  lemma PlanExactly(limits: Limits, detect: seq<Byte> -> string, data: seq<Byte>, first: Ending)
    ensures
      var mediaType := MediaType(detect(if |data| < 512 then data else data[..512]));
      var plan := Plan(limits, detect, data, first);
      && (plan.Ok? ==> plan.value.0 == mediaType)
      && (plan.Ok? && plan.value.1 == "jpg" ==> mediaType == "image/jpeg" && plan.value.2 == limits.imageMaxBytes)
      && (plan.Ok? && plan.value.1 == "png" ==> mediaType == "image/png" && plan.value.2 == limits.imageMaxBytes)
      && (plan.Ok? && plan.value.1 == "gif" ==> mediaType == "image/gif" && plan.value.2 == limits.imageMaxBytes)
      && (plan.Ok? && plan.value.1 == "webp" ==> mediaType == "image/webp" && plan.value.2 == limits.imageMaxBytes)
      && (plan.Ok? && plan.value.1 == "mp4" ==>
            limits.videoEnabled && mediaType == "video/mp4" && plan.value.2 == limits.videoMaxBytes)
      && (plan.Ok? && plan.value.1 == "webm" ==>
            limits.videoEnabled && mediaType == "video/webm" && plan.value.2 == limits.videoMaxBytes)
      && (plan.Ok? ==> plan.value.1 in {"jpg", "png", "gif", "webp", "mp4", "webm"})
      && (plan == TypeNotAllowed <==>
            && data != [] && !(|data| < 512 && first == Failed)
            && mediaType !in {"image/jpeg", "image/png", "image/gif", "image/webp"}
            && !(limits.videoEnabled && mediaType in {"video/mp4", "video/webm"}))
      && (plan == InvalidFile <==> data == [] && first != Failed)
      && (!plan.Ok? ==> plan == TypeNotAllowed || plan == InvalidFile || plan == Unavailable)
  {
    assert Head(data) == if |data| < 512 then data else data[..512];
  }

  class Service {
    const store: LocalStore
    const limits: Limits

    constructor (store: LocalStore, limits: Limits)
      ensures this.store == store && this.limits == limits
    {
      this.store, this.limits := store, limits;
    }

    /** The part of Upload behind the checks: the header is replayed before the rest. */
    method Keep(key: ObjectKey, mediaType: string, maxBytes: nat, header: seq<Byte>, content: Stream, buffer: nat,
                faults: Faults)
      returns (r: Result<Uploaded>)
      requires buffer >= 1
      modifies store`owners, store`entries, content
      ensures r.Ok? ==>
        && old(content.Ending()) == Complete
        && r.value == Uploaded(key, mediaType, |header + old(content.Data())|) && r.value.size <= maxBytes
        && Stored(old(store.entries), store.entries, Print(key), header + old(content.Data()))
      ensures !r.Ok? ==> Restored(old(store.entries), store.entries, Temporary(key), faults)
      ensures r == TooLarge ==> |header + old(content.Data())| > maxBytes
      ensures r != TypeNotAllowed && r != InvalidFile
      ensures (&& Smooth(faults) && Ready(store.active, old(store.entries), key) && maxBytes >= 1
               && old(content.Ending()) == Complete) ==>
        if |header + old(content.Data())| <= maxBytes then r.Ok? else r == TooLarge
    {
      var replay := new Replay(header, content);
      var size := store.Put(key, replay, maxBytes, buffer, faults);
      match size
      case Ok(n) => r := Ok(Uploaded(key, mediaType, n));
      case _ => r := Refusal(size);
    }

    /** Upload up to the answer. */
    method Receive(owner: Uuid, content: Stream, detect: seq<Byte> -> string, id: Option<Uuid>, buffer: nat,
                   faults: Faults)
      returns (r: Result<Uploaded>)
      requires buffer >= 1
      modifies store`owners, store`entries, content
      ensures r.Ok? ==>
        var plan := Plan(limits, detect, old(content.Data()), old(content.Ending()));
        && owner != NIL_UUID && id.Some? && plan.Ok?
        && HeardByStore(old(content.chunks), content.early, old(content.Ending()), content.later) == Complete
        && Reports(r.value, owner, id.value, plan.value, old(content.Data()))
        && Stored(old(store.entries), store.entries, Print(r.value.key), old(content.Data()))
      ensures r.Ok? ==>
        (old(content.Ending()) == Complete
         <==> !EndingLost(old(content.chunks), content.early, old(content.Ending()), content.later))
      ensures
        var plan := Plan(limits, detect, old(content.Data()), old(content.Ending()));
        !r.Ok? && store.entries != old(store.entries) ==>
          && plan.Ok? && id.Some?
          && Restored(old(store.entries), store.entries, Temporary(NewKey(owner, id.value, plan.value)), faults)
      ensures owner == NIL_UUID ==> r == InvalidFile
      ensures
        var plan := Plan(limits, detect, old(content.Data()), old(content.Ending()));
        owner != NIL_UUID && !plan.Ok? ==> r == Refusal(plan)
      ensures
        var plan := Plan(limits, detect, old(content.Data()), old(content.Ending()));
        owner != NIL_UUID && plan.Ok? ==> r != TypeNotAllowed && r != InvalidFile
      ensures
        var plan := Plan(limits, detect, old(content.Data()), old(content.Ending()));
        r == TooLarge ==> plan.Ok? && |old(content.Data())| > plan.value.2
      ensures
        var plan := Plan(limits, detect, old(content.Data()), old(content.Ending()));
        (&& owner != NIL_UUID && id.Some? && plan.Ok? && plan.value.2 >= 1 && Smooth(faults)
         && HeardByStore(old(content.chunks), content.early, old(content.Ending()), content.later) == Complete
         && Ready(store.active, old(store.entries), NewKey(owner, id.value, plan.value))) ==>
          if |old(content.Data())| <= plan.value.2 then r.Ok? else r == TooLarge
    {
      if owner == NIL_UUID {
        return InvalidFile;
      }
      var header, failed := ReadHeader(content);
      if failed {
        return Unavailable;
      }
      if |header| == 0 {
        return InvalidFile;
      }
      var mediaType := MediaType(detect(header));
      var allowed := AllowedType(limits, mediaType);
      if allowed.None? {
        return TypeNotAllowed;
      }
      if id.None? {
        return Unavailable;
      }
      var key := ObjectKey(owner, id.value, allowed.value.0);
      r := Keep(key, mediaType, allowed.value.1, header, content, buffer, faults);
    }

    /** An upload that succeeds has stored exactly the bytes the reader delivered under the new
        key, and nothing else has changed; one that fails has changed no file.  When nothing goes
        wrong it succeeds exactly for a content within the limit of its type of whose end the
        store hears io.EOF.  What is stored is the whole of what was sent exactly if no other
        ending was lost with the header. */
    method Upload(owner: Uuid, content: Stream, detect: seq<Byte> -> string, id: Option<Uuid>, buffer: nat,
                  faults: Faults)
      returns (r: Result<Uploaded>)
      requires buffer >= 1
      modifies store`owners, store`entries, content
      ensures r.Ok? ==>
        var plan := Plan(limits, detect, old(content.Data()), old(content.Ending()));
        && owner != NIL_UUID && id.Some? && plan.Ok?
        && HeardByStore(old(content.chunks), content.early, old(content.Ending()), content.later) == Complete
        && Reports(r.value, owner, id.value, plan.value, old(content.Data()))
        && Stored(old(store.entries), store.entries, Print(r.value.key), old(content.Data()))
      ensures r.Ok? ==>
        (old(content.Ending()) == Complete
         <==> !EndingLost(old(content.chunks), content.early, old(content.Ending()), content.later))
      ensures
        var plan := Plan(limits, detect, old(content.Data()), old(content.Ending()));
        !r.Ok? && store.entries != old(store.entries) ==>
          && plan.Ok? && id.Some?
          && Restored(old(store.entries), store.entries, Temporary(NewKey(owner, id.value, plan.value)), faults)
      ensures r.Ok? ==>
        var data := old(content.Data());
        var mediaType := MediaType(detect(if |data| < 512 then data else data[..512]));
        && r.value.contentType == mediaType && r.value.size == |data|
        && r.value.key.owner == owner && Some(r.value.key.item) == id
        && (|| (mediaType == "image/jpeg" && r.value.key.ext == "jpg" && |data| <= limits.imageMaxBytes)
            || (mediaType == "image/png" && r.value.key.ext == "png" && |data| <= limits.imageMaxBytes)
            || (mediaType == "image/gif" && r.value.key.ext == "gif" && |data| <= limits.imageMaxBytes)
            || (mediaType == "image/webp" && r.value.key.ext == "webp" && |data| <= limits.imageMaxBytes)
            || (limits.videoEnabled && mediaType == "video/mp4" && r.value.key.ext == "mp4"
                && |data| <= limits.videoMaxBytes)
            || (limits.videoEnabled && mediaType == "video/webm" && r.value.key.ext == "webm"
                && |data| <= limits.videoMaxBytes))
        && store.entries == old(store.entries)[Print(r.value.key) := Regular(data)]
      ensures
        var data := old(content.Data());
        var mediaType := MediaType(detect(if |data| < 512 then data else data[..512]));
        r == TypeNotAllowed <==>
          && owner != NIL_UUID && data != []
          && !(|data| < 512 && old(content.Ending()) == Failed)
          && mediaType !in {"image/jpeg", "image/png", "image/gif", "image/webp"}
          && !(limits.videoEnabled && mediaType in {"video/mp4", "video/webm"})
      ensures r == InvalidFile <==>
        owner == NIL_UUID || (old(content.Data()) == [] && old(content.Ending()) != Failed)
      ensures
        var plan := Plan(limits, detect, old(content.Data()), old(content.Ending()));
        owner != NIL_UUID && !plan.Ok? ==> r == Refusal(plan)
      ensures
        var plan := Plan(limits, detect, old(content.Data()), old(content.Ending()));
        r == TooLarge ==> plan.Ok? && |old(content.Data())| > plan.value.2
      ensures
        var plan := Plan(limits, detect, old(content.Data()), old(content.Ending()));
        (&& owner != NIL_UUID && id.Some? && plan.Ok? && plan.value.2 >= 1 && Smooth(faults)
         && HeardByStore(old(content.chunks), content.early, old(content.Ending()), content.later) == Complete
         && Ready(store.active, old(store.entries), NewKey(owner, id.value, plan.value))) ==>
          if |old(content.Data())| <= plan.value.2 then r.Ok? else r == TooLarge
    {
      PlanExactly(limits, detect, content.Data(), content.Ending());
      r := Receive(owner, content, detect, id, buffer, faults);
    }

    /** What is found under a path. */
    method Open(value: string) returns (r: Result<(Uploaded, seq<Byte>)>)
      ensures r == Found(store.active, store.entries, value)
      ensures r.Ok? <==>
        && Parse(value).Some? && store.active && value in store.entries && store.entries[value].Regular?
      ensures r.Ok? ==>
        var key := Parse(value).value;
        && r.value.0.key == key && r.value.0.size == |r.value.1| && r.value.1 == store.entries[value].bytes
        && (key.ext == "jpg" ==> r.value.0.contentType == "image/jpeg")
        && (key.ext == "png" ==> r.value.0.contentType == "image/png")
        && (key.ext == "gif" ==> r.value.0.contentType == "image/gif")
        && (key.ext == "webp" ==> r.value.0.contentType == "image/webp")
        && (key.ext == "mp4" ==> r.value.0.contentType == "video/mp4")
        && (key.ext == "webm" ==> r.value.0.contentType == "video/webm")
    {
      PrintParse(value);
      ParsedIsFound(store.active, store.entries, value);
      var key := Parse(value);
      if key.None? {
        return InvalidKey;
      }
      var mediaType := TypeOf(key.value.ext);
      if mediaType.None? {
        return InvalidKey;
      }
      var bytes := store.Open(key.value);
      match bytes
      case Ok(data) => r := Ok((Uploaded(key.value, mediaType.value, |data|), data));
      case _ => r := Refusal(bytes);
    }

    /** Only the owner of an object, or a superuser, removes it. */
    method Delete(actor: Uuid, superuser: bool, value: string, faults: Faults) returns (r: Result<()>)
      modifies store`entries
      ensures r.Ok? ==>
        && Parse(value).Some? && actor != NIL_UUID && (superuser || Parse(value).value.owner == actor)
        && value in old(store.entries) && store.entries == old(store.entries) - {value}
      ensures !r.Ok? ==> store.entries == old(store.entries)
      ensures r == Forbidden <==>
        && Parse(value).Some? && (actor == NIL_UUID || (!superuser && Parse(value).value.owner != actor))
      ensures (&& !faults.remove && store.active && Parse(value).Some? && actor != NIL_UUID
               && (superuser || Parse(value).value.owner == actor) && value in old(store.entries)) ==> r.Ok?
    {
      var key := Parse(value);
      if key.None? {
        return InvalidKey;
      }
      if actor == NIL_UUID || (!superuser && actor != key.value.owner) {
        return Forbidden;
      }
      PrintParse(value);
      ValidExactly(key.value);
      r := store.Delete(key.value, faults);
    }
  }

  /** The same failure, of another type. */
  function Refusal<T, U>(r: Result<T>): (f: Result<U>)
    ensures r.Ok? || (!f.Ok? && (r == TooLarge <==> f == TooLarge))
    ensures (r == TypeNotAllowed <==> f == TypeNotAllowed) && (r == InvalidFile <==> f == InvalidFile)
  {
    match r
    case Ok(_) => Unavailable
    case InvalidKey => InvalidKey
    case NotFound => NotFound
    case Forbidden => Forbidden
    case InvalidFile => InvalidFile
    case TypeNotAllowed => TypeNotAllowed
    case TooLarge => TooLarge
    case Unavailable => Unavailable
  }

  function Found(active: bool, entries: map<string, Entry>, value: string): Result<(Uploaded, seq<Byte>)> {
    match Parse(value)
    case None => InvalidKey
    case Some(key) =>
      match TypeOf(key.ext)
      case None => InvalidKey
      case Some(mediaType) =>
        match Opened(active, entries, key)
        case Ok(data) => Ok((Uploaded(key, mediaType, |data|), data))
        case failure => Refusal(failure)
  }

  /** What is found under the text of a key, in terms of the entry of that name. */
  lemma ParsedIsFound(active: bool, entries: map<string, Entry>, value: string)
    ensures Found(active, entries, value).Ok? <==>
            Parse(value).Some? && active && value in entries && entries[value].Regular?
    ensures Found(active, entries, value).Ok? ==> Found(active, entries, value).value.1 == entries[value].bytes
  {
    PrintParse(value);
    if Parse(value).Some? {
      var key := Parse(value).value;
      KeptKey(key);
      assert Opened(active, entries, key).Ok? <==> active && value in entries && entries[value].Regular?;
    }
  }

  lemma KeptKey(key: ObjectKey)
    requires AllowedExtension(key.ext)
    ensures Validate(key) && TypeOf(key.ext).Some?
  {
    ValidExactly(key);
  }

  // ---------------------------------------------------------------------------------------
  // Round trip
  // ---------------------------------------------------------------------------------------

  lemma FoundStored(entries: map<string, Entry>, key: ObjectKey, mediaType: string, data: seq<Byte>)
    requires AllowedExtension(key.ext) && TypeOf(key.ext) == Some(mediaType)
    requires Print(key) in entries && entries[Print(key)] == Regular(data)
    ensures Found(true, entries, Print(key)) == Ok((Uploaded(key, mediaType, |data|), data))
  {
    ParsePrint(key);
  }

  lemma FoundElsewhere(before: map<string, Entry>, after: map<string, Entry>, path: string, data: seq<Byte>,
                      value: string)
    requires Stored(before, after, path, data) && value != path
    ensures Found(true, after, value) == Found(true, before, value)
  {
    PrintParse(value);
  }

  /** After a successful upload, opening the returned key gives the same bytes, size and media
      type, and every other path is found as before. */
  lemma UploadThenOpen(before: map<string, Entry>, after: map<string, Entry>, limits: Limits,
                       detect: seq<Byte> -> string, data: seq<Byte>, first: Ending, owner: Uuid, id: Uuid, r: Uploaded)
    requires Plan(limits, detect, data, first).Ok?
    requires Reports(r, owner, id, Plan(limits, detect, data, first).value, data)
    requires Stored(before, after, Print(r.key), data)
    ensures Found(true, after, Print(r.key)) == Ok((r, data))
    ensures forall value | value != Print(r.key) :: Found(true, after, value) == Found(true, before, value)
  {
    AcceptedIsServed(limits, MediaType(detect(Head(data))));
    FoundStored(after, r.key, r.contentType, data);
    forall value | value != Print(r.key)
      ensures Found(true, after, value) == Found(true, before, value)
    {
      FoundElsewhere(before, after, Print(r.key), data, value);
    }
  }

  // ---------------------------------------------------------------------------------------
  // A truncated content that is stored
  // ---------------------------------------------------------------------------------------

  function NoFaults(): Faults {
    Faults(false, false, (k: nat) => None, (k: nat) => false, false, false, false, false)
  }

  function Png(header: seq<Byte>): string {
    "image/png"
  }

  lemma PlainType(s: string)
    requires ';' !in s && Tight(s) && Lower(s) == s
    ensures MediaType(s) == s
  {
    SplitNone(s, ';');
    TightStays(s);
  }

  lemma PngType()
    ensures MediaType("image/png") == "image/png"
  {
    PlainType("image/png");
  }

  lemma PngPlan(data: seq<Byte>)
    requires data != []
    ensures Plan(Limits(1024, false, 1024), Png, data, Truncated) == Ok(("image/png", "png", 1024))
  {
    PngType();
  }

  lemma ShortHeard(data: seq<Byte>)
    requires |data| < SNIFF_BYTES
    ensures Flatten([data]) == data && HeardByStore([data], false, Truncated, Complete) == Complete
  {
    assert Flatten([data]) == data + Flatten([]) == data;
    HeardWithHeader([data], false, SNIFF_BYTES);
  }

  lemma NewStoreReady(key: ObjectKey)
    requires AllowedExtension(key.ext)
    ensures Ready(true, map[], key) && Smooth(NoFaults())
  {
    ValidExactly(key);
  }

  /** A reader that delivers a few bytes, says io.ErrUnexpectedEOF once and io.EOF from then on:
      the bytes are stored, and the upload succeeds. */
  method UploadTruncated(data: seq<Byte>, owner: Uuid, id: Uuid)
    returns (r: Result<Uploaded>, entries: map<string, Entry>)
    requires 0 < |data| < SNIFF_BYTES && owner != NIL_UUID
    ensures r == Ok(Uploaded(ObjectKey(owner, id, "png"), "image/png", |data|))
    ensures entries == map[Print(ObjectKey(owner, id, "png")) := Regular(data)]
  {
    var store := new LocalStore();
    store.Start();
    var service := new Service(store, Limits(1024, false, 1024));
    var content := new Stream([data], Truncated, Complete, false);
    PngPlan(data);
    ShortHeard(data);
    NewStoreReady(ObjectKey(owner, id, "png"));
    r := service.Upload(owner, content, Png, Some(id), 1, NoFaults());
    entries := store.entries;
  }
}
