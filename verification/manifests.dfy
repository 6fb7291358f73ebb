/** The over-the-air install manifest served by `get '/:id/manifest'`, as a
    structure rather than property-list text. */
module Manifests {
  import opened Common
  import opened PathNames
  import opened Apps

  datatype Asset = Asset(kind: string, needsShine: Option<bool>, url: string)

  datatype Metadata = Metadata(bundleIdentifier: string, kind: string, subtitle: string, title: string)

  datatype Item = Item(assets: seq<Asset>, metadata: Metadata)

  datatype Manifest = Manifest(items: seq<Item>)

  /** The manifest of one record: one item with the binary as its software package,
      the icon as its display image, and the record's identifier and display name. */
  function BuildManifest(cfg: Config, app: App): (m: Manifest)
    ensures |m.items| == 1 && |m.items[0].assets| == 2
    ensures m.items[0].assets[0] == Asset("software-package", None, AppUrl(cfg, app))
    ensures m.items[0].assets[1] == Asset("display-image", Some(true), IconUrl(cfg, app))
    ensures m.items[0].metadata.bundleIdentifier == app.identifier
    ensures m.items[0].metadata.kind == "software" && m.items[0].metadata.subtitle == "AppSendr"
    ensures m.items[0].metadata.title + ExtName(app.filename) == BaseName(app.filename)
  {
    Manifest([
      Item(
        [ Asset("software-package", None, AppUrl(cfg, app)),
          Asset("display-image", Some(true), IconUrl(cfg, app)) ],
        Metadata(app.identifier, "software", "AppSendr", Name(app)))
    ])
  }

  /** An observer, not a step of the service: how an installing device reads the
      manifest back, by taking the URL of the first asset of the given kind. */
  function AssetUrl(assets: seq<Asset>, kind: string): (r: Option<string>)
    ensures r.Some? <==> exists i :: 0 <= i < |assets| && assets[i].kind == kind
    ensures r.Some? ==> exists i :: 0 <= i < |assets| && assets[i].kind == kind && assets[i].url == r.value
  {
    if |assets| == 0 then None
    else if assets[0].kind == kind then Some(assets[0].url)
    else
      var r := AssetUrl(assets[1..], kind);
      assert forall i :: 0 < i < |assets| ==> assets[i] == assets[1..][i - 1];
      r
  }

  /** An installer reading the manifest finds the binary's public URL as the
      software package and the icon URL as the display image. */
  lemma ManifestLeadsToAssets(cfg: Config, app: App)
    ensures |BuildManifest(cfg, app).items| == 1
    ensures AssetUrl(BuildManifest(cfg, app).items[0].assets, "software-package") == Some(AppUrl(cfg, app))
    ensures AssetUrl(BuildManifest(cfg, app).items[0].assets, "display-image") == Some(IconUrl(cfg, app))
  {
    var assets := BuildManifest(cfg, app).items[0].assets;
    assert assets[0].kind == "software-package";
    assert assets[1..][0].kind == "display-image";
    assert "software-package"[0] != "display-image"[0];
  }

  /** The manifest's title is the uploaded file's base name with its extension cut
      off: title followed by the extension gives the base name back. */
  lemma ManifestTitleIsStem(cfg: Config, app: App)
    ensures BuildManifest(cfg, app).items[0].metadata.title + ExtName(app.filename) == BaseName(app.filename)
    ensures BuildManifest(cfg, app).items[0].metadata.title == Stem(app.filename)
  {
  }

  /** The manifest depends only on the binary URL, the icon URL, the bundle identifier
      and the display name; in particular not on the install count or timestamps. */
  lemma ManifestDeterminedBy(cfg: Config, a: App, b: App)
    ensures AppUrl(cfg, a) == AppUrl(cfg, b) && IconUrl(cfg, a) == IconUrl(cfg, b)
            && a.identifier == b.identifier && Name(a) == Name(b)
            ==> BuildManifest(cfg, a) == BuildManifest(cfg, b)
  {
  }
}
