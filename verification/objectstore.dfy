/** `_upload_to_s3`: the object store seen as the log of writes made to it. */
module ObjectStore {
  import opened Common
  import opened PathNames
  import opened Apps

  /** One `S3Object.store` call: the object's path, its contents and whether it is public-read. */
  datatype Put = Put(path: string, data: Bytes, publicRead: bool)

  /** Where a file goes: the fixed name `icon.png` for an icon, the uploaded file
      name for a binary, both under the record's id. The path splits back into the
      id's folder and the object's name. */
  function ObjectPath(key: string, filename: string, icon: bool): (p: string)
    ensures |p| >= |key| + 5 && p[..|key| + 5] == "app/" + key + "/"
    ensures p[|key| + 5..] == if icon then "icon.png" else filename
  {
    var dir := "app/" + key + "/";
    if icon then dir + "icon.png" else dir + filename
  }

  /** `_upload_to_s3(data, key, filename, icon)`: append one public-read write. */
  function UploadToS3(puts: seq<Put>, data: Bytes, key: string, filename: string, icon: bool): (r: seq<Put>)
    ensures |r| == |puts| + 1 && r[..|puts|] == puts
    ensures r[|puts|].path == ObjectPath(key, filename, icon) && r[|puts|].data == data
    ensures r[|puts|].publicRead
  {
    puts + [Put(ObjectPath(key, filename, icon), data, true)]
  }

  /** The public URLs of a record name the objects written for it: the icon URL is
      the icon's path under the asset URL, and the binary URL is the binary's path
      with the file name escaped. */
  lemma PublicUrlsNameObjects(cfg: Config, app: App)
    ensures app.icon ==> IconUrl(cfg, app) == cfg.assetUrl + "/" + ObjectPath(app.id, app.filename, true)
    ensures AppUrl(cfg, app) == cfg.assetUrl + "/" + ObjectPath(app.id, cfg.escape(app.filename), false)
  {
    assert cfg.assetUrl + "/app/" + app.id + "/icon.png" == cfg.assetUrl + "/" + ("app/" + app.id + "/" + "icon.png");
  }

  /** The fixed icon file name has extension `.png`. */
  lemma IconFileExtension(n: string)
    requires n == "icon.png"
    ensures ExtName(n) == ".png"
  {
    assert LastIndexOf(n, '/') == -1 by {
      assert forall i :: 0 <= i < |n| ==> n[i] != '/';
    }
    assert BaseName(n) == n;
    assert LeadingDots(n) == 0;
    assert LastIndexOf(n, '.') == 4 by {
      assert n[4] == '.';
      assert forall i :: 4 < i < |n| ==> n[i] != '.';
    }
  }

  /** Only a binary named exactly `icon.png` would share the icon's path. */
  lemma PathsDifferByName(key: string, filename: string, iconName: string)
    requires filename != "icon.png"
    ensures ObjectPath(key, filename, false) != ObjectPath(key, iconName, true)
  {
    var p := "app/" + key + "/";
    assert ObjectPath(key, filename, false) == p + filename;
    assert ObjectPath(key, iconName, true) == p + "icon.png";
    assert (p + filename)[|p|..] == filename;
    assert (p + "icon.png")[|p|..] == "icon.png";
  }

  /** A binary whose extension is `.ipa` or `.apk` never lands on the icon's path,
      so a record's binary and icon are distinct objects. */
  lemma BinaryNeverOverwritesIcon(key: string, filename: string, iconName: string)
    ensures ExtName(filename) == ".ipa" || ExtName(filename) == ".apk" ==>
              ObjectPath(key, filename, false) != ObjectPath(key, iconName, true)
  {
    if filename == "icon.png" {
      IconFileExtension(filename);
    } else {
      PathsDifferByName(key, filename, iconName);
    }
  }
}
