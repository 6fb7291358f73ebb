/** The two request handlers that change state: `post '/app'` (upload) and
    `get '/r/:id'` (count an install and redirect). The world they act on is the
    record store together with the log of writes to the object store. */
module Routes {
  import opened Common
  import opened PathNames
  import opened HashId
  import opened Apps
  import opened Manifests
  import opened ObjectStore

  const InvalidFileTypeMessage: string := "Invalid file type. Must be an IPA or APK"
  const NoBinaryMessage: string := "No binary file provided"
  const CreateFailedMessage: string := "Problem creating app"

  /** A multipart file field: the client's file name and the file's contents. */
  datatype FileParam = FileParam(filename: string, data: Bytes)

  /** The fields of an upload request; `binary` and `icon` may be missing. */
  datatype UploadRequest = UploadRequest(binary: Option<FileParam>, identifier: string, icon: Option<FileParam>)

  /** The record store and every write made to the object store so far. */
  datatype World = World(store: Store, puts: seq<Put>)

  /** The JSON envelope of the upload route: status and message, or status and data. */
  datatype UploadResponse =
    | UploadFailed(status: nat, message: string)
    | UploadCreated(status: nat, id: string, url: string, filename: string, createdAt: Time)

  datatype Uploaded = Uploaded(response: UploadResponse, world: World)

  /** What `App.create` does with the new record: hands back nothing (`Refused`),
      hands back a resource that was not saved (`Unsaved`; the resource is truthy
      all the same), or saves it and hands it back (`Saved`). */
  datatype Creation = Refused | Unsaved | Saved

  const AcceptedExtensions: set<string> := {".ipa", ".apk"}

  /** The file-type test as the source writes it: the singleton holding the
      extension is a proper subset of `{".ipa", ".apk"}`. That is exactly the
      case-sensitive test "the extension is .ipa or .apk". */
  function ExtensionAccepted(filename: string): (ok: bool)
    ensures ok <==> ExtName(filename) == ".ipa" || ExtName(filename) == ".apk"
  {
    assert ".ipa"[1] != ".apk"[1];
    {ExtName(filename)} < AcceptedExtensions
  }

  /** For an ordinary file name `stem + ext` the test looks at `ext` alone. */
  lemma AcceptedPlainName(stem: string, ext: string)
    requires |stem| > 0
    requires forall i :: 0 <= i < |stem| ==> stem[i] != '.' && stem[i] != '/'
    requires |ext| > 0 && ext[0] == '.'
    requires forall i :: 0 <= i < |ext| ==> ext[i] != '/'
    requires forall i :: 0 < i < |ext| ==> ext[i] != '.'
    ensures ExtensionAccepted(stem + ext) <==> ext == ".ipa" || ext == ".apk"
  {
    PlainFileName(stem, ext);
  }

  /** A four-character extension: a '.' and three characters, none a '.' or a '/'. */
  lemma FourCharExtension(stem: string, e: string)
    requires |stem| > 0
    requires forall i :: 0 <= i < |stem| ==> stem[i] != '.' && stem[i] != '/'
    requires |e| == 4 && e[0] == '.'
    requires e[1] != '.' && e[2] != '.' && e[3] != '.'
    requires e[1] != '/' && e[2] != '/' && e[3] != '/'
    ensures ExtensionAccepted(stem + e) <==> e == ".ipa" || e == ".apk"
  {
    AcceptedPlainName(stem, e);
  }

  /** The test compares letters exactly: for any ordinary file name, lower-case
      `.ipa` and `.apk` pass and their upper-case spellings are refused. */
  lemma ExtensionTestIsCaseSensitive(stem: string)
    requires |stem| > 0
    requires forall i :: 0 <= i < |stem| ==> stem[i] != '.' && stem[i] != '/'
    ensures ExtensionAccepted(stem + ".ipa") && ExtensionAccepted(stem + ".apk")
    ensures !ExtensionAccepted(stem + ".IPA") && !ExtensionAccepted(stem + ".APK")
  {
    FourCharExtension(stem, ".ipa");
    FourCharExtension(stem, ".apk");
    FourCharExtension(stem, ".IPA");
    FourCharExtension(stem, ".APK");
  }

  /** A request that passes both checks of the upload route. */
  predicate ValidUpload(req: UploadRequest) {
    req.binary.Some? && ExtensionAccepted(req.binary.value.filename)
  }

  /** The random draws offered to the id generator contain a candidate that no
      record of `store` uses, so the retry loop ends. */
  predicate OracleSuffices(cfg: Config, store: Store, draws: seq<Draw>) {
    HasAbsent(Candidates(draws, cfg.lengthOfHash), store.Keys)
  }

  /** What every stored record satisfies: it sits under its own id, its file has an
      accepted extension, and its platform flag agrees with that extension. */
  predicate StoreInvariant(store: Store) {
    && WellKeyed(store)
    && forall k :: k in store ==> Consistent(store[k])
  }

  /** A record's file has an accepted extension and its platform flag is the one
      that extension gives. */
  predicate Consistent(app: App) {
    ExtensionAccepted(app.filename) && (app.android <==> ExtName(app.filename) == ".apk")
  }

  /** The log of object-store writes an accepted upload under `key` makes: the icon,
      if any, before the record is created; the binary only once `App.create` has
      handed something back (`returned`). */
  function UploadWrites(key: string, req: UploadRequest, returned: bool): seq<Put>
    requires req.binary.Some?
  {
    (if req.icon.Some? then [Put(ObjectPath(key, req.icon.value.filename, true), req.icon.value.data, true)] else [])
    + (if returned then [Put(ObjectPath(key, req.binary.value.filename, false), req.binary.value.data, true)] else [])
  }

  /** The upload route once the request has passed validation, `key` is fresh and
      `android` has been read off the extension: store the icon, create the
      record, then store the binary and answer 201 if `App.create` handed back a
      resource, saved or not. */
  function Accept(cfg: Config, w: World, req: UploadRequest, key: string, android: bool, now: Time, creation: Creation): (u: Uploaded)
    requires req.binary.Some? && key !in w.store
    ensures u.response.UploadCreated? <==> creation != Refused
    ensures creation == Refused ==> u.response == UploadFailed(400, CreateFailedMessage)
    ensures creation != Refused ==>
              u.response == UploadCreated(201, key, cfg.baseUrl + "/" + key, req.binary.value.filename, now)
    ensures key in u.world.store <==> creation == Saved
    ensures creation != Saved ==> u.world.store == w.store
    ensures creation == Saved ==>
              var f := req.binary.value;
              && u.world.store.Keys == w.store.Keys + {key}
              && (forall k :: k in w.store ==> u.world.store[k] == w.store[k])
              && u.world.store[key].id == key
              && u.world.store[key].filename == f.filename
              && u.world.store[key].identifier == req.identifier
              && u.world.store[key].installs == 0
              && u.world.store[key].icon == req.icon.Some?
              && u.world.store[key].android == android
              && u.world.store[key].createdAt == now && u.world.store[key].updatedAt == now
    ensures u.world.puts == w.puts + UploadWrites(key, req, creation != Refused)
  {
    var f := req.binary.value;
    var puts := AcceptWrites(w.puts, key, req, creation != Refused);
    if creation == Refused then
      Uploaded(UploadFailed(400, CreateFailedMessage), World(w.store, puts))
    else
      var app := App(key, f.filename, req.identifier, 0, req.icon.Some?, android, now, now);
      var store := if creation == Saved then w.store[key := app] else w.store;
      Uploaded(UploadCreated(201, key, cfg.baseUrl + "/" + key, f.filename, now), World(store, puts))
  }

  /** The object-store writes of the upload route, in the order it makes them: the
      icon through `_upload_to_s3` if one was sent, then the binary if `App.create`
      handed something back. */
  function AcceptWrites(puts: seq<Put>, key: string, req: UploadRequest, returned: bool): (r: seq<Put>)
    requires req.binary.Some?
    ensures r == puts + UploadWrites(key, req, returned)
  {
    var f := req.binary.value;
    var iconWrites :=
      if req.icon.Some? then [Put(ObjectPath(key, req.icon.value.filename, true), req.icon.value.data, true)] else [];
    var afterIcon :=
      if req.icon.Some? then UploadToS3(puts, req.icon.value.data, key, req.icon.value.filename, true)
      else puts;
    assert afterIcon == puts + iconWrites;
    if returned then
      var binaryWrite := Put(ObjectPath(key, f.filename, false), f.data, true);
      assert UploadWrites(key, req, true) == iconWrites + [binaryWrite];
      assert puts + iconWrites + [binaryWrite] == puts + (iconWrites + [binaryWrite]);
      UploadToS3(afterIcon, f.data, key, f.filename, false)
    else
      assert UploadWrites(key, req, false) == iconWrites + [];
      afterIcon
  }

  /** `post '/app'`. `draws` are the values `rand` returns, `now` the clock, and
      `creation` what `App.create` does with the record. */
  function Upload(cfg: Config, w: World, req: UploadRequest, draws: seq<Draw>, now: Time, creation: Creation): (u: Uploaded)
    requires ValidUpload(req) ==> OracleSuffices(cfg, w.store, draws)
    // the two 400 answers of validation leave the world as it was
    ensures req.binary.None? ==> u == Uploaded(UploadFailed(400, NoBinaryMessage), w)
    ensures req.binary.Some? && !ExtensionAccepted(req.binary.value.filename) ==>
              u == Uploaded(UploadFailed(400, InvalidFileTypeMessage), w)
    // past validation: a fresh generated id, and the record and writes made under it
    ensures ValidUpload(req) ==>
              var key := GeneratedId(w.store.Keys, draws, cfg.lengthOfHash);
              && key !in w.store
              && |key| == cfg.lengthOfHash + 1 && AllLower(key)
              && u == Accept(cfg, w, req, key, ExtName(req.binary.value.filename) == ".apk", now, creation)
  {
    if req.binary.None? then Uploaded(UploadFailed(400, NoBinaryMessage), w)
    else if !ExtensionAccepted(req.binary.value.filename) then Uploaded(UploadFailed(400, InvalidFileTypeMessage), w)
    else
      var f := req.binary.value;
      Accept(cfg, w, req, GeneratedId(w.store.Keys, draws, cfg.lengthOfHash), ExtName(f.filename) == ".apk", now, creation)
  }

  /** The answer of `get '/r/:id'`: 404, or a 302 redirect. */
  datatype TrackResponse = TrackNotFound(status: nat) | TrackRedirect(status: nat, location: string)

  datatype Tracked = Tracked(response: TrackResponse, store: Store)

  /** `get '/r/:id'`: count one install of a known id and send the client to its
      install URL; an unknown id is answered 404. */
  function TrackInstall(cfg: Config, store: Store, id: string): (t: Tracked)
    ensures id !in store ==> t == Tracked(TrackNotFound(404), store)
    ensures id in store ==>
              && t.store.Keys == store.Keys
              && t.store[id] == store[id].(installs := store[id].installs + 1)
              && (forall k :: k in store && k != id ==> t.store[k] == store[k])
    ensures id in store ==> t.response == TrackRedirect(302, InstallUrl(cfg, store[id]))
    ensures id in store && store[id].android ==> t.response == TrackRedirect(302, AppUrl(cfg, store[id]))
    ensures id in store && !store[id].android && WellKeyed(store) ==>
              t.response == TrackRedirect(302, ItmsPrefix + cfg.baseUrl + "/" + id + "/manifest")
  {
    if id !in store then Tracked(TrackNotFound(404), store)
    else
      var app := store[id].(installs := store[id].installs + 1);
      Tracked(TrackRedirect(302, InstallUrl(cfg, app)), store[id := app])
  }

  /** An upload keeps every stored record consistent: the new record sits under its
      own id, has an accepted extension and the platform flag that extension gives. */
  lemma UploadKeepsInvariant(cfg: Config, w: World, req: UploadRequest, draws: seq<Draw>, now: Time, creation: Creation)
    requires ValidUpload(req) ==> OracleSuffices(cfg, w.store, draws)
    requires StoreInvariant(w.store)
    ensures StoreInvariant(Upload(cfg, w, req, draws, now, creation).world.store)
  {
    var u := Upload(cfg, w, req, draws, now, creation);
    if ValidUpload(req) && creation == Saved {
      var f := req.binary.value;
      var key := GeneratedId(w.store.Keys, draws, cfg.lengthOfHash);
      var android := ExtName(f.filename) == ".apk";
      assert u == Accept(cfg, w, req, key, android, now, creation);
      assert u.world.store[key].filename == f.filename && u.world.store[key].android == android;
      assert Consistent(u.world.store[key]);
      forall k | k in u.world.store
        ensures u.world.store[k].id == k && Consistent(u.world.store[k])
      {
        if k != key {
          assert u.world.store[k] == w.store[k];
        }
      }
    } else {
      assert u.world.store == w.store;
    }
  }

  /** Counting an install keeps every stored record consistent. */
  lemma TrackKeepsInvariant(cfg: Config, store: Store, id: string)
    requires StoreInvariant(store)
    ensures StoreInvariant(TrackInstall(cfg, store, id).store)
  {
    if id in store {
      var a := store[id].(installs := store[id].installs + 1);
      var after := TrackInstall(cfg, store, id).store;
      assert after == store[id := a];
      SameFileConsistent(store[id], a);
      forall k | k in after
        ensures after[k].id == k && Consistent(after[k])
      {
        if k != id {
          assert after[k] == store[k];
        }
      }
    }
  }

  /** Whether a record is consistent depends on its file name and platform flag alone. */
  lemma SameFileConsistent(a: App, b: App)
    requires a.filename == b.filename && a.android == b.android
    ensures Consistent(a) <==> Consistent(b)
  {
  }

  /** The store after `n` requests to the same track URL. */
  function TrackTimes(cfg: Config, store: Store, id: string, n: nat): Store
    decreases n
  {
    if n == 0 then store else TrackTimes(cfg, TrackInstall(cfg, store, id).store, id, n - 1)
  }

  /** `n` requests to the track URL of a known id raise its install count by exactly
      `n` and change nothing else; for an unknown id they change nothing. */
  lemma {:induction false} TrackTimesCounts(cfg: Config, store: Store, id: string, n: nat)
    ensures TrackTimes(cfg, store, id, n).Keys == store.Keys
    ensures id in store ==>
              TrackTimes(cfg, store, id, n)[id] == store[id].(installs := store[id].installs + n)
    ensures forall k :: k in store && k != id ==> TrackTimes(cfg, store, id, n)[k] == store[k]
    ensures id !in store ==> TrackTimes(cfg, store, id, n) == store
    decreases n
  {
    if n > 0 {
      var next := TrackInstall(cfg, store, id).store;
      TrackTimesCounts(cfg, next, id, n - 1);
    }
  }

  /** Counting installs never changes what any record's manifest says. */
  lemma TrackKeepsManifests(cfg: Config, store: Store, id: string, k: string)
    requires k in store
    ensures k in TrackInstall(cfg, store, id).store
    ensures BuildManifest(cfg, TrackInstall(cfg, store, id).store[k]) == BuildManifest(cfg, store[k])
  {
  }

  /** Two uploads in a row that both succeed get different ids, and the second
      leaves the first one's record in place. */
  lemma SuccessiveUploadsDistinct(
    cfg: Config, w: World,
    r1: UploadRequest, d1: seq<Draw>, t1: Time,
    r2: UploadRequest, d2: seq<Draw>, t2: Time)
    ensures
      && ValidUpload(r1) && OracleSuffices(cfg, w.store, d1)
      && ValidUpload(r2) && OracleSuffices(cfg, Upload(cfg, w, r1, d1, t1, Saved).world.store, d2)
      ==>
      var u1 := Upload(cfg, w, r1, d1, t1, Saved);
      var u2 := Upload(cfg, u1.world, r2, d2, t2, Saved);
      && u1.response.UploadCreated? && u2.response.UploadCreated?
      && u1.response.id != u2.response.id
      && u1.response.id in u2.world.store
      && u2.world.store[u1.response.id] == u1.world.store[u1.response.id]
  {
  }

  /** The link handed out after an upload works: the track URL of the new id
      redirects to the new record's install URL and counts its first install. */
  lemma UploadThenTrack(cfg: Config, w: World, req: UploadRequest, draws: seq<Draw>, now: Time)
    ensures ValidUpload(req) && OracleSuffices(cfg, w.store, draws) ==>
      var u := Upload(cfg, w, req, draws, now, Saved);
      var id := u.response.id;
      var t := TrackInstall(cfg, u.world.store, id);
      && u.response.UploadCreated?
      && t.response.TrackRedirect?
      && t.response.location == InstallUrl(cfg, u.world.store[id])
      && t.store[id].installs == 1
      && (t.store[id].android <==> ExtName(req.binary.value.filename) == ".apk")
  {
    if ValidUpload(req) && OracleSuffices(cfg, w.store, draws) {
      var f := req.binary.value;
      var key := GeneratedId(w.store.Keys, draws, cfg.lengthOfHash);
      var u := Upload(cfg, w, req, draws, now, Saved);
      assert u == Accept(cfg, w, req, key, ExtName(f.filename) == ".apk", now, Saved);
      assert u.response.id == key && key in u.world.store;
      FirstTrack(cfg, u.world.store, key);
    }
  }

  /** When `App.create` hands back a resource it did not save, the upload still
      answers 201 with the new id and writes the binary, but the id's track URL
      answers 404: the link handed out leads nowhere. */
  lemma UnsavedUploadLinkNotFound(cfg: Config, w: World, req: UploadRequest, draws: seq<Draw>, now: Time)
    ensures ValidUpload(req) && OracleSuffices(cfg, w.store, draws) ==>
      var u := Upload(cfg, w, req, draws, now, Unsaved);
      && u.response.UploadCreated? && u.response.status == 201
      && u.world.store == w.store
      && u.world.puts[|u.world.puts| - 1].path == ObjectPath(u.response.id, req.binary.value.filename, false)
      && TrackInstall(cfg, u.world.store, u.response.id) == Tracked(TrackNotFound(404), w.store)
  {
    if ValidUpload(req) && OracleSuffices(cfg, w.store, draws) {
      var f := req.binary.value;
      var key := GeneratedId(w.store.Keys, draws, cfg.lengthOfHash);
      var u := Upload(cfg, w, req, draws, now, Unsaved);
      assert u == Accept(cfg, w, req, key, ExtName(f.filename) == ".apk", now, Unsaved);
      LastWriteIsBinary(w.puts, key, req);
    }
  }

  /** Once `App.create` has handed something back, the last write is the binary. */
  lemma LastWriteIsBinary(puts: seq<Put>, key: string, req: UploadRequest)
    requires req.binary.Some?
    ensures
      var r := puts + UploadWrites(key, req, true);
      |r| > 0 && r[|r| - 1] == Put(ObjectPath(key, req.binary.value.filename, false), req.binary.value.data, true)
  {
    var ws := UploadWrites(key, req, true);
    assert ws[|ws| - 1] == Put(ObjectPath(key, req.binary.value.filename, false), req.binary.value.data, true);
    assert (puts + ws)[|puts + ws| - 1] == ws[|ws| - 1];
  }

  /** The first request to the track URL of a fresh record. */
  lemma FirstTrack(cfg: Config, store: Store, id: string)
    requires id in store && store[id].installs == 0
    ensures
      var t := TrackInstall(cfg, store, id);
      && t.response == TrackRedirect(302, InstallUrl(cfg, store[id]))
      && t.store[id].installs == 1
      && t.store[id].android == store[id].android
  {
  }
}
