/** The `App` record and the URLs and display name derived from it. */
module Apps {
  import opened Common
  import opened PathNames

  /** Process-wide settings: the service's own base URL, the public URL of the asset
      bucket, the length setting of generated ids, and `CGI.escape`, a library call
      supplied here as a parameter. */
  datatype Config = Config(baseUrl: string, assetUrl: string, lengthOfHash: nat, escape: string -> string)

  /** One uploaded application. `id` is the short id and the record's key. */
  datatype App = App(
    id: string,
    filename: string,
    identifier: string,
    installs: nat,
    icon: bool,
    android: bool,
    createdAt: Time,
    updatedAt: Time)

  /** The record store: every record under its id. */
  type Store = map<string, App>

  /** Every record is stored under its own id. */
  predicate WellKeyed(store: Store) {
    forall k :: k in store ==> store[k].id == k
  }

  /** `app_url`: public URL of the uploaded binary. The record's id and the escaped
      file name can be read back from it. */
  function AppUrl(cfg: Config, app: App): (u: string)
    ensures |u| == |cfg.assetUrl| + |app.id| + |cfg.escape(app.filename)| + 6
    ensures u[..|cfg.assetUrl| + 5] == cfg.assetUrl + "/app/"
    ensures u[|cfg.assetUrl| + 5..|cfg.assetUrl| + 5 + |app.id|] == app.id
    ensures u[|cfg.assetUrl| + 5 + |app.id|..] == "/" + cfg.escape(app.filename)
  {
    var p := cfg.assetUrl + "/app/";
    var u := p + app.id + ("/" + cfg.escape(app.filename));
    assert u == cfg.assetUrl + "/app/" + app.id + "/" + cfg.escape(app.filename);
    u
  }

  /** `manifest_url`: this service's manifest endpoint for the record. The id is
      what lies between the base URL's "/" and "/manifest". */
  function ManifestUrl(cfg: Config, app: App): (u: string)
    ensures |u| == |cfg.baseUrl| + |app.id| + 10
    ensures u[..|cfg.baseUrl| + 1] == cfg.baseUrl + "/"
    ensures u[|cfg.baseUrl| + 1..|u| - 9] == app.id
    ensures u[|u| - 9..] == "/manifest"
  {
    var p := cfg.baseUrl + "/";
    var u := p + app.id + "/manifest";
    assert u[|p|..|p| + |app.id|] == app.id;
    u
  }

  /** `install_track_url`: this service's counting redirect for the record. The id
      is everything after the base URL's "/r/". */
  function InstallTrackUrl(cfg: Config, id: string): (u: string)
    ensures |u| == |cfg.baseUrl| + 3 + |id|
    ensures u[..|cfg.baseUrl| + 3] == cfg.baseUrl + "/r/"
    ensures u[|cfg.baseUrl| + 3..] == id
  {
    var p := cfg.baseUrl + "/r/";
    p + id
  }

  const ItmsPrefix: string := "itms-services://?action=download-manifest&url="

  /** `install_url`: the binary itself for Android, the over-the-air install
      link around the manifest URL otherwise. */
  function InstallUrl(cfg: Config, app: App): (u: string)
    ensures app.android ==> u == AppUrl(cfg, app)
    ensures !app.android ==> u == ItmsPrefix + cfg.baseUrl + "/" + app.id + "/manifest"
  {
    if app.android then AppUrl(cfg, app)
    else ItmsPrefix + ManifestUrl(cfg, app)
  }

  /** `icon_url`: the uploaded icon when there is one, a shared default image otherwise. */
  function IconUrl(cfg: Config, app: App): (u: string)
    ensures u == cfg.assetUrl + "/app/" + app.id + "/icon.png" <==> app.icon
    ensures !app.icon ==> u == cfg.assetUrl + "/default.png"
  {
    if app.icon then cfg.assetUrl + "/app/" + app.id + "/icon.png"
    else
      var d := cfg.assetUrl + "/default.png";
      assert d != cfg.assetUrl + "/app/" + app.id + "/icon.png" by {
        assert d[|cfg.assetUrl| + 1] == 'd';
        assert (cfg.assetUrl + "/app/" + app.id + "/icon.png")[|cfg.assetUrl| + 1] == 'a';
      }
      d
  }

  /** `name`: the display name, the uploaded file's base name without its extension;
      the extension put back gives the base name. */
  function Name(app: App): (n: string)
    ensures n + ExtName(app.filename) == BaseName(app.filename)
  {
    StemAndExtension(app.filename);
    Stem(app.filename)
  }

  /** Two records tell the track URL apart by id: the track URL names exactly one id. */
  lemma TrackUrlNamesOneId(cfg: Config, a: string, b: string)
    requires InstallTrackUrl(cfg, a) == InstallTrackUrl(cfg, b)
    ensures a == b
  {
    var n := |cfg.baseUrl| + 3;
    assert a == InstallTrackUrl(cfg, a)[n..];
    assert b == InstallTrackUrl(cfg, b)[n..];
  }

  /** The manifest URL, and so an iOS install URL, names exactly one id. */
  lemma ManifestUrlNamesOneId(cfg: Config, a: App, b: App)
    requires ManifestUrl(cfg, a) == ManifestUrl(cfg, b)
    ensures a.id == b.id
    ensures !a.android && !b.android ==> InstallUrl(cfg, a) == InstallUrl(cfg, b)
  {
    var u := ManifestUrl(cfg, a);
    assert a.id == u[|cfg.baseUrl| + 1..|u| - 9];
    assert b.id == ManifestUrl(cfg, b)[|cfg.baseUrl| + 1..|u| - 9];
  }

  /** The URLs a client is sent to depend on the record's id, file name and
      platform only: counting installs or touching timestamps leaves them alone. */
  lemma UrlsIgnoreCounters(cfg: Config, a: App, b: App)
    requires a.id == b.id && a.filename == b.filename && a.icon == b.icon && a.android == b.android
    ensures InstallUrl(cfg, a) == InstallUrl(cfg, b)
    ensures IconUrl(cfg, a) == IconUrl(cfg, b)
    ensures AppUrl(cfg, a) == AppUrl(cfg, b)
  {
  }
}
