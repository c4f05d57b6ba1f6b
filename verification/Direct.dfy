/** The embedded HTTP downloader: one download from the first request to the finished file. */
module Direct {
  import opened Streams

  datatype Id = Hash(bits: nat)

  datatype Status = Queued | Downloading | Completed | Failed

  /** The message beside a status. */
  datatype Reason =
    | NoError
    | Unresolved
    | Unreachable
    | BadStatus(code: int)
    | LoginRequired
    | Challenged
    | Unsolvable
    | BypassBroken
    | UnreachableAfterBypass
    | BadStatusAfterBypass(code: int)
    | NoDirectory
    | NoFile
    | WriteError
    | ReadError

  /** A response: status, whether its type is HTML, the announced length, the name it suggests, the body. */
  datatype Response = Response(code: int, html: bool, length: int, name: string, body: Body)

  datatype Fetched = NoResponse | Got(response: Response)

  datatype Bypasser = Absent | Disabled | GivesUp | Breaks | Solves(retry: Fetched)

  /** Everything the outside decides during one download. */
  datatype World = World(
    resolved: bool,
    first: Fetched,
    detect: Bytes -> bool,
    bypasser: Bypasser,
    directoryMade: bool,
    fileMade: bool,
    room: nat,
    join: (string, string) -> string)

  const PREVIEW: nat := 4096
  const BUFFER: nat := 32768
  const OK: int := 200

  function BodiesOf(f: Fetched): set<Body> {
    if f.Got? then {f.response.body} else {}
  }

  function Bodies(w: World): set<Body> {
    BodiesOf(w.first) + if w.bypasser.Solves? then BodiesOf(w.bypasser.retry) else {}
  }

  /** The retry is a response of its own. */
  predicate Fresh(w: World) {
    w.first.Got? && w.bypasser.Solves? && w.bypasser.retry.Got? ==>
      w.first.response.body != w.bypasser.retry.response.body
  }

  /** The response whose body becomes the file, or why there is none. */
  datatype Choice = Stop(reason: Reason) | Use(response: Response)

  function Take(s: Bytes, n: nat): Bytes {
    if |s| <= n then s else s[..n]
  }

  /** What a bypasser does for a page that was recognised as a challenge. */
  function AfterChallenge(b: Bypasser): Choice {
    match b
    case Absent => Stop(Challenged)
    case Disabled => Stop(Challenged)
    case GivesUp => Stop(Unsolvable)
    case Breaks => Stop(BypassBroken)
    case Solves(retry) =>
      if retry.NoResponse? then Stop(UnreachableAfterBypass)
      else if retry.response.code != OK then Stop(BadStatusAfterBypass(retry.response.code))
      else Use(retry.response)
  }

  /** `whole` is the whole body of the first response. */
  function Choose(w: World, whole: Bytes): Choice {
    if !w.resolved then Stop(Unresolved)
    else if w.first.NoResponse? then Stop(Unreachable)
    else if w.first.response.code != OK then Stop(BadStatus(w.first.response.code))
    else if !w.first.response.html then Use(w.first.response)
    else if !w.detect(Take(whole, PREVIEW)) then Stop(LoginRequired)
    else AfterChallenge(w.bypasser)
  }

  /** What copying a body into a new file leaves in it, and the error it ends with. */
  function Copied(body: Bytes, broken: bool, room: nat): (Bytes, Reason) {
    if |body| > room then (body[..room], WriteError)
    else if broken then (body, ReadError)
    else (body, NoError)
  }

  lemma CutShort(whole: Bytes, done: Bytes, rest: Bytes, room: nat)
    requires whole == done + rest && room < |done|
    ensures room < |whole| && whole[..room] == done[..room]
  {
  }

  function Percent(downloaded: nat, size: int, previous: real): real {
    if size > 0 then downloaded as real / size as real * 100.0 else previous
  }

  /** The progress is the one from before, or the percentage of what is shown as downloaded. */
  ghost predicate Shows(progress: real, downloaded: int, size: int, previous: real) {
    progress == previous || (size > 0 && downloaded >= 0 && progress == Percent(downloaded, size, previous))
  }

  /** How a download ends, and the file it leaves. */
  datatype Leaves = NoWrite | Writes(path: string, content: Bytes)

  datatype Outcome = Outcome(reason: Reason, leaves: Leaves)

  ghost function Whole(f: Fetched): Bytes
    reads BodiesOf(f)
  {
    if f.Got? then f.response.body.Rest() else []
  }

  /** The response a download is about: the first, or the retry of a page that was a challenge. */
  function Source(w: World): Fetched {
    if w.first.Got? && w.first.response.html && w.bypasser.Solves? then w.bypasser.retry else w.first
  }

  /** The outcome of saving `body` as the content of a response. */
  function Saved(w: World, r: Response, body: Bytes, dir: string, name: string): Outcome {
    if !w.directoryMade then Outcome(NoDirectory, NoWrite)
    else if !w.fileMade then Outcome(NoFile, NoWrite)
    else
      var (content, reason) := Copied(body, r.body.broken, w.room);
      Outcome(reason, Writes(Target(w, r, dir, name), content))
  }

  /** The outcome depends on the bytes of the bodies only, not on how they are split into reads. */
  ghost function Expected(w: World, dir: string, name: string): Outcome
    reads Bodies(w)
  {
    match Choose(w, Whole(w.first))
    case Stop(reason) => Outcome(reason, NoWrite)
    case Use(r) => Saved(w, r, r.body.Rest(), dir, name)
  }

  /** Exactly when a download completes. */
  lemma CompletesIff(w: World, dir: string, name: string)
    ensures Expected(w, dir, name).reason.NoError? <==>
            && w.resolved && w.first.Got? && w.first.response.code == OK
            && (w.first.response.html ==>
                  w.detect(Take(Whole(w.first), PREVIEW)) && w.bypasser.Solves? && w.bypasser.retry.Got? &&
                  w.bypasser.retry.response.code == OK)
            && w.directoryMade && w.fileMade
            && |Whole(Source(w))| <= w.room && !Source(w).response.body.broken
  {
  }

  /** Exactly when a completed download is an HTML page: the retry after a solved challenge is not looked at. */
  lemma PageIsKeptIff(w: World, dir: string, name: string)
    requires Expected(w, dir, name).reason.NoError?
    ensures Source(w).Got?
    ensures Source(w).response.html <==>
            w.first.response.html && w.bypasser.Solves? && w.bypasser.retry.Got? && w.bypasser.retry.response.html
  {
    CompletesIff(w, dir, name);
  }

  /** A second challenge page, answered with OK, becomes the file: the download completes with the whole page. */
  lemma SecondChallengeBecomesFile(w: World, dir: string, name: string)
    requires w.resolved && w.first.Got? && w.first.response.code == OK && w.first.response.html
    requires w.detect(Take(Whole(w.first), PREVIEW)) && w.bypasser.Solves? && w.bypasser.retry.Got?
    requires w.bypasser.retry.response.code == OK && w.bypasser.retry.response.html
    requires w.directoryMade && w.fileMade
    requires |Whole(w.bypasser.retry)| <= w.room && !w.bypasser.retry.response.body.broken
    ensures Source(w).response.html
    ensures Expected(w, dir, name) ==
            Outcome(NoError, Writes(Target(w, w.bypasser.retry.response, dir, name), Whole(w.bypasser.retry)))
  {
  }

  class Item {
    const id: Id
    const name: string
    var status: Status
    var error: Reason
    var progress: real
    var size: int
    var downloaded: int
    var savePath: string

    constructor (id: Id, name: string, savePath: string)
      ensures this.id == id && this.name == name && this.savePath == savePath
      ensures status == Queued && error == NoError && progress == 0.0 && size == 0 && downloaded == 0
    {
      this.id := id;
      this.name := name;
      this.savePath := savePath;
      status := Queued;
      error := NoError;
      progress := 0.0;
      size := 0;
      downloaded := 0;
    }
  }

  function FileName(r: Response, name: string): string {
    if r.name == "" then name + ".epub" else r.name
  }

  /** The file a download writes. */
  function Target(w: World, r: Response, dir: string, name: string): string {
    w.join(dir, FileName(r, name))
  }

  /** An open file on a file system with limited room. */
  class OutFile {
    var content: Bytes
    const room: nat

    constructor (room: nat)
      ensures content == [] && this.room == room
    {
      content := [];
      this.room := room;
    }

    /** Appends; a full disk takes what fits and reports an error. */
    method Write(data: Bytes) returns (ok: bool)
      modifies this
      ensures ok <==> |old(content) + data| <= room
      ensures content == Take(old(content) + data, room)
    {
      var whole := content + data;
      content := Take(whole, room);
      ok := |whole| <= room;
    }
  }

  /** Progress is published from time to time, not after every read; a length that is not known shows none. */
  method Publish(dl: Item, downloaded: nat)
    modifies dl`downloaded, dl`progress
    ensures dl.downloaded == downloaded || (dl.downloaded == old(dl.downloaded) && dl.progress == old(dl.progress))
    ensures Shows(dl.progress, dl.downloaded, dl.size, old(dl.progress))
  {
    if * {
      dl.downloaded := downloaded;
      dl.progress := Percent(downloaded, dl.size, dl.progress);
    }
  }

  /** What is written and what is still to be read make up `whole`, and all that is written fits. */
  ghost predicate Halfway(out: OutFile, rest: Replay, whole: Bytes)
    reads out, rest, rest.body
  {
    rest.Valid() && |out.content| <= out.room && out.content + rest.Rest() == whole
  }

  /** One read and one write; `full` tells that the disk took only a part. */
  method CopyChunk(out: OutFile, fullBody: Replay, ghost whole: Bytes) returns (n: nat, last: End, full: bool)
    requires Halfway(out, fullBody, whole)
    modifies out, fullBody, fullBody.body
    ensures full ==> |whole| > out.room && out.content == whole[..out.room]
    ensures !full ==> Halfway(out, fullBody, whole) && |out.content| == |old(out.content)| + n
    ensures last != More ==> fullBody.Rest() == [] && last == fullBody.body.Last()
    ensures last == More ==> fullBody.Size() < old(fullBody.Size())
  {
    ghost var before := out.content;
    var data;
    data, last := fullBody.Read(BUFFER);
    ghost var rest := fullBody.Rest();
    assert before + (data + rest) == (before + data) + rest;
    n, full := |data|, false;
    if |data| > 0 {
      var ok := out.Write(data);
      full := !ok;
      if full {
        CutShort(whole, before + data, rest, out.room);
      }
    } else {
      assert before + data == before;
    }
  }

  /** The copy loop: replays the preview, then the rest of the body, into the open file. */
  method Copy(dl: Item, out: OutFile, preview: Bytes, body: Body) returns (downloaded: nat, end: Reason)
    requires out.content == [] && dl.downloaded == 0
    modifies out, dl`downloaded, dl`progress, body
    ensures (out.content, end) == Copied(old(preview + body.Rest()), body.broken, out.room)
    ensures end.NoError? ==> downloaded == |out.content|
    ensures 0 <= dl.downloaded <= |out.content|
  {
    var fullBody := new Replay(preview, body);
    ghost var whole := fullBody.Rest();
    downloaded := 0;
    var last := More;
    while last == More
      invariant fullBody.body == body && Halfway(out, fullBody, whole)
      invariant last != More ==> fullBody.Rest() == [] && last == body.Last()
      invariant 0 <= dl.downloaded <= downloaded == |out.content|
      decreases last == More, fullBody.Size()
    {
      var n, full;
      n, last, full := CopyChunk(out, fullBody, whole);
      if full {
        return downloaded, WriteError;
      }
      downloaded := downloaded + n;
      if n > 0 {
        Publish(dl, downloaded);
      }
    }
    assert out.content == whole;
    end := if last == EndOfFile then NoError else ReadError;
  }

  class Client {
    var downloads: map<Id, Item>
    var disk: map<string, Bytes>

    constructor (disk: map<string, Bytes>)
      ensures downloads == map[] && this.disk == disk
    {
      downloads := map[];
      this.disk := disk;
    }

    ghost predicate Valid()
      reads this, downloads.Values
    {
      forall id :: id in downloads ==> downloads[id].id == id
    }

    /** Adds a queued item, in place of the one that had the id if there was one; the download itself runs later. */
    method Add(id: Id, name: string, dir: string, configured: string) returns (dl: Item)
      requires Valid()
      modifies this`downloads
      ensures Valid() && fresh(dl)
      ensures downloads == old(downloads)[id := dl]
      ensures dl.id == id && dl.name == name && dl.savePath == if dir != "" then dir else configured
      ensures dl.status == Queued && dl.error == NoError && dl.progress == 0.0 && dl.downloaded == 0
    {
      var savePath := configured;
      if dir != "" {
        savePath := dir;
      }
      dl := new Item(id, name, savePath);
      downloads := downloads[id := dl];
    }

    ghost function At(id: Id): set<Item>
      reads this
    {
      if id in downloads then {downloads[id]} else {}
    }

    /** Writes a status into the table; an id that is not there is ignored. */
    method UpdateStatus(id: Id, status: Status, error: Reason)
      modifies At(id)`status, At(id)`error
      ensures id in downloads ==> downloads[id].status == status && downloads[id].error == error
    {
      if id in downloads {
        var dl := downloads[id];
        dl.status := status;
        dl.error := error;
      }
    }

    method Remove(id: Id, deleteData: bool, removable: bool) returns (ok: bool)
      requires Valid()
      modifies this
      ensures Valid()
      ensures downloads == old(downloads) - {id}
      ensures ok <==> id in old(downloads) && (deleteData && old(downloads[id].savePath) != "" ==> removable)
      ensures disk == if ok && deleteData && old(downloads[id].savePath) != ""
                     then old(disk) - {old(downloads[id].savePath)} else old(disk)
    {
      if id !in downloads {
        return false;
      }
      var savePath := downloads[id].savePath;
      downloads := downloads - {id};
      if deleteData && savePath != "" {
        if !removable {
          return false;
        }
        disk := disk - {savePath};
      }
      ok := true;
    }

    // ---------------------------------------------------------------- one download

    /** `dl` is the item the table has under its id, if it has one. */
    ghost predicate Registered(dl: Item)
      reads this
    {
      dl.id in downloads ==> downloads[dl.id] == dl
    }

    /** Attempt 1, the preview, and attempt 2 after a solved challenge. */
    method Obtain(dl: Item, w: World) returns (choice: Choice, preview: Bytes)
      requires Registered(dl) && Fresh(w)
      modifies At(dl.id)`status, At(dl.id)`error, Bodies(w)
      ensures choice == Choose(w, old(Whole(w.first)))
      ensures choice.Use? ==> preview + choice.response.body.Rest() == old(choice.response.body.Rest())
      ensures dl.id in downloads ==>
                dl.status == (if choice.Stop? then Failed else Downloading) &&
                dl.error == (if choice.Stop? then choice.reason else NoError)
    {
      preview := [];
      UpdateStatus(dl.id, Downloading, NoError);
      if !w.resolved {
        UpdateStatus(dl.id, Failed, Unresolved);
        return Stop(Unresolved), [];
      }
      if w.first.NoResponse? {
        UpdateStatus(dl.id, Failed, Unreachable);
        return Stop(Unreachable), [];
      }
      var resp := w.first.response;
      if resp.code != OK {
        UpdateStatus(dl.id, Failed, BadStatus(resp.code));
        return Stop(BadStatus(resp.code)), [];
      }
      preview := ReadFull(resp.body, PREVIEW);
      assert preview == Take(old(Whole(w.first)), PREVIEW) by {
        assert resp.body.chunks == [] ==> resp.body.Rest() == [];
      }
      if resp.html {
        if !w.detect(preview) {
          UpdateStatus(dl.id, Failed, LoginRequired);
          return Stop(LoginRequired), [];
        }
        choice := Retry(dl, w);
        preview := [];
        return choice, preview;
      }
      choice := Use(resp);
    }

    method Retry(dl: Item, w: World) returns (choice: Choice)
      requires Registered(dl)
      modifies At(dl.id)`status, At(dl.id)`error
      ensures choice == AfterChallenge(w.bypasser)
      ensures dl.id in downloads ==>
                dl.status == (if choice.Stop? then Failed else old(dl.status)) &&
                dl.error == (if choice.Stop? then choice.reason else old(dl.error))
    {
      if w.bypasser.Absent? || w.bypasser.Disabled? {
        UpdateStatus(dl.id, Failed, Challenged);
        return Stop(Challenged);
      }
      if w.bypasser.GivesUp? {
        UpdateStatus(dl.id, Failed, Unsolvable);
        return Stop(Unsolvable);
      }
      if w.bypasser.Breaks? {
        UpdateStatus(dl.id, Failed, BypassBroken);
        return Stop(BypassBroken);
      }
      if w.bypasser.retry.NoResponse? {
        UpdateStatus(dl.id, Failed, UnreachableAfterBypass);
        return Stop(UnreachableAfterBypass);
      }
      var resp := w.bypasser.retry.response;
      if resp.code != OK {
        UpdateStatus(dl.id, Failed, BadStatusAfterBypass(resp.code));
        return Stop(BadStatusAfterBypass(resp.code));
      }
      choice := Use(resp);
    }

    /** From the chosen response to the finished file. */
    method Save(dl: Item, w: World, resp: Response, preview: Bytes) returns (o: Outcome)
      requires Registered(dl) && dl.downloaded == 0
      modifies this`disk, dl, resp.body
      ensures o == Saved(w, resp, old(preview + resp.body.Rest()), old(dl.savePath), dl.name)
      ensures disk == if o.leaves.NoWrite? then old(disk) else old(disk)[o.leaves.path := o.leaves.content]
      ensures dl.savePath == if o.leaves.NoWrite? then old(dl.savePath) else o.leaves.path
      ensures dl.status == if o.reason.NoError? then Completed
                           else if dl.id in downloads then Failed else old(dl.status)
      ensures dl.error == if !o.reason.NoError? && dl.id in downloads then o.reason else old(dl.error)
      ensures o.reason.NoError? ==> dl.progress == 100.0 && dl.downloaded == dl.size == |o.leaves.content|
      ensures o.leaves.Writes? ==> 0 <= dl.downloaded <= |o.leaves.content|
    {
      dl.size := resp.length;
      if !w.directoryMade {
        UpdateStatus(dl.id, Failed, NoDirectory);
        return Outcome(NoDirectory, NoWrite);
      }
      if !w.fileMade {
        UpdateStatus(dl.id, Failed, NoFile);
        return Outcome(NoFile, NoWrite);
      }
      var path := Target(w, resp, dl.savePath, dl.name);
      var out := new OutFile(w.room);
      dl.savePath := path;
      var downloaded, end := Copy(dl, out, preview, resp.body);
      disk := disk[path := out.content];
      Close(dl, downloaded, end);
      o := Outcome(end, Writes(path, out.content));
    }

    /** The final fields. */
    method Close(dl: Item, downloaded: nat, end: Reason)
      requires Registered(dl)
      modifies dl`status, dl`error, dl`progress, dl`downloaded, dl`size
      ensures dl.status == if end.NoError? then Completed else if dl.id in downloads then Failed else old(dl.status)
      ensures dl.error == if !end.NoError? && dl.id in downloads then end else old(dl.error)
      ensures if end.NoError? then dl.progress == 100.0 && dl.downloaded == dl.size == downloaded
              else dl.downloaded == old(dl.downloaded)
    {
      if end != NoError {
        UpdateStatus(dl.id, Failed, end);
      } else {
        dl.status := Completed;
        dl.progress := 100.0;
        dl.downloaded := downloaded;
        dl.size := downloaded;
      }
    }

    /**
     * One download. A completed one has written the whole body of the response it chose, whatever reads
     * that body came in; a failed one has written a prefix of what arrived, or no file at all.
     */
    method DownloadFile(dl: Item, w: World) returns (o: Outcome)
      requires Registered(dl) && Fresh(w) && dl.downloaded == 0
      modifies this`disk, dl, Bodies(w)
      ensures o == old(Expected(w, dl.savePath, dl.name))
      ensures disk == if o.leaves.NoWrite? then old(disk) else old(disk)[o.leaves.path := o.leaves.content]
      ensures dl.status == if o.reason.NoError? then Completed else if dl.id in downloads then Failed else old(dl.status)
      ensures dl.id in downloads ==> dl.error == o.reason
      ensures o.leaves.Writes? ==> dl.savePath == o.leaves.path && o.leaves.content <= old(Whole(Source(w)))
      ensures o.reason.NoError? ==>
                o.leaves.Writes? && o.leaves.content == old(Whole(Source(w))) &&
                dl.downloaded == dl.size == |o.leaves.content| && dl.progress == 100.0
    {
      var choice, preview := Obtain(dl, w);
      if choice.Stop? {
        return Outcome(choice.reason, NoWrite);
      }
      o := Save(dl, w, choice.response, preview);
    }
  }
}
