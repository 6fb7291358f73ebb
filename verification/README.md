# ota.io upload and install service — a Dafny model

ota.io accepts an iOS (`.ipa`) or Android (`.apk`) binary with an optional icon.
It stores both in a public object-store bucket and keeps one `App` record per upload under a short random id.
It hands out two install links:

- an over-the-air manifest for iOS devices;
- a tracking URL that counts an install and then redirects to the real install target.

This project models the logic in `application.rb`:

- the `App` record and the URLs and display name derived from it;
- the validation and record creation of `post '/app'`, including the order of its object-store writes;
- the short-id generator `_generate_hash_id`;
- the install counter of `get '/r/:id'`;
- the manifest built by `get '/:id/manifest'`, as a structure;
- the path choice of `_upload_to_s3`.

Modules:

- `Common`: the `Option` type, raw bytes and timestamps.
- `PathNames`: Ruby's `File.basename(path)`, `File.basename(path, '.*')` and `File.extname(path)` on `/`-separated paths.
- `HashId`: `_generate_hash_id`. The random number generator is an oracle, given as the sequence of values `rand(78)` returns. A candidate takes `LENGTH_OF_HASH + 1` of them.
- `Apps`: the `App` record, the configuration, and the URL helpers of the `App` class.
- `Manifests`: the manifest of one record.
- `ObjectStore`: `_upload_to_s3`, modelled as appending one `Put` (path, bytes, public-read) to a log of writes.
- `Routes`: `post '/app'` as `Upload` (with `Accept` for the part after validation), and `get '/r/:id'` as `TrackInstall`. Both are pure functions from the record store and the write log to a response and the new state.

Collaborators that are not part of the service become parameters:

- `rand` is the draw sequence.
- `Time.now` is `now`. The code reads the clock twice, once for `created_at` and once for `updated_at`. The model reads it once and gives both fields the same `now`.
- `CGI.escape` is the `escape` field of `Config`.
- What `App.create` does is the parameter `creation` of type `Creation`:
  - `Refused`: it hands back nothing.
  - `Unsaved`: it hands back a resource that was not saved. That resource is truthy all the same.
  - `Saved`: it saves the record and hands it back.
- `BASE_URL`, `ASSET_URL` and `LENGTH_OF_HASH` are fields of `Config`.

Facts about the code that the model keeps:

- The file-type test `Set[ext].proper_subset? Set[".ipa", ".apk"]` accepts exactly `.ipa` and `.apk`, case-sensitively. A one-element set is a proper subset of a two-element set exactly when its element belongs to it (`ExtensionAccepted`, `ExtensionTestIsCaseSensitive`).
- The icon is written to the object store before the record is created. The binary is written after, and only when `App.create` hands back a resource. Nothing is rolled back.
- When `App.create` hands back a resource that was not saved, the route still writes the binary and answers 201 with the new id. No record is stored, so that id's track URL answers 404 (`UnsavedUploadLinkNotFound`).
- The generator checks only that the candidate is absent from the store. A failed create is not retried.
- `File.basename(f, '.*')` removes exactly what `File.extname(f)` returns. Both ignore the dots a name begins with, so `.profile` and `..foo` have no extension and are their own stem (`LeadingDotsOnly`).

## Model

| member | source | states |
|---|---|---|
| PathNames.BaseName | application.rb:45 | `File.basename(path)`: contains no '/', is no longer than the path, and the character before it, if any, is a '/' |
| PathNames.BaseNameIsSuffix | application.rb:45 | the base name is the end of the path: it starts right after the path's last '/', or is the whole path when there is none |
| PathNames.Extension | application.rb:67-68 | the extension of a base name: empty, or a '.' followed by no further '.'; a suffix of the base name; non-empty if and only if a '.' follows the dots the name begins with |
| PathNames.WithoutExtension | application.rb:45 | the base name without its extension: followed by the extension it gives the base name back, for every base name |
| PathNames.ExtName | application.rb:67-68 | `File.extname(path)`: a suffix of the base name, non-empty if and only if a '.' follows the dots the base name begins with; empty or a '.' followed by no further '.'; no '/' |
| PathNames.Stem | application.rb:45 | `File.basename(path, '.*')`: no '/', and no longer than the base name |
| PathNames.StemAndExtension | application.rb:44-46 | for every path, `File.basename(path, '.*')` followed by `File.extname(path)` is `File.basename(path)` |
| PathNames.LeadingDotsOnly | application.rb:44-46 | a base name whose only dots are the ones it begins with has no extension and is its own stem |
| PathNames.PlainFileName | application.rb:67-68 | an ordinary file name `stem + ext` has extension `ext` and display name `stem` |
| HashId.PoolIsThreeAlphabets | application.rb:177-178 | the pool `Chars` holds 78 characters, and index `d` holds the `d % 26`-th letter of 'a'..'z' |
| HashId.Spell | application.rb:179-182 | a run of draws spells a string of the same length, made only of lower-case letters |
| HashId.Candidates | application.rb:179-187 | every candidate the oracle yields has `LENGTH_OF_HASH + 1` lower-case letters |
| HashId.FirstAbsent | application.rb:183-188 | retry-until-absent: the chosen candidate is not taken, and every candidate drawn before it is taken |
| HashId.GeneratedId | application.rb:173-191 | the generated id has length `LENGTH_OF_HASH + 1`, only letters 'a'..'z', and is not a key of the store |
| HashId.NextCandidate | application.rb:179-182 | one character and then `LENGTH_OF_HASH` more produce exactly the next candidate, consuming exactly its draws |
| HashId.GenerateHashId | application.rb:173-191 | the loop returns the first candidate not in the store, which has the length, letters and freshness above |
| Apps.AppUrl | application.rb:40-42 | the binary's URL splits back into asset URL + `/app/`, the record's id, and `/` + the escaped file name |
| Apps.ManifestUrl | application.rb:31-33 | the manifest URL splits back into base URL + `/`, the record's id, and `/manifest` |
| Apps.InstallTrackUrl | application.rb:27-29 | the track URL splits back into base URL + `/r/` and the id |
| Apps.InstallUrl | application.rb:22-25 | the binary's public URL for Android; otherwise `itms-services://?action=download-manifest&url=` + base URL + `/` + id + `/manifest` |
| Apps.IconUrl | application.rb:35-38 | the URL is asset URL + `/app/` + id + `/icon.png` if and only if an icon was uploaded; otherwise asset URL + `/default.png` |
| Apps.Name | application.rb:44-46 | the display name followed by the file's extension is the file's base name |
| Apps.TrackUrlNamesOneId | application.rb:27-29 | distinct ids have distinct install-track URLs |
| Apps.ManifestUrlNamesOneId | application.rb:22-33 | equal manifest URLs mean equal ids, and then the iOS install URLs are equal too |
| Apps.UrlsIgnoreCounters | application.rb:22-42 | install, icon and binary URLs depend only on id, file name, icon flag and platform, never on the install count or timestamps |
| Manifests.BuildManifest | application.rb:110-128 | one item with exactly two assets: the "software-package" at the binary's URL with no needs-shine entry, then the "display-image" at the icon URL with needs-shine true. The metadata has the record's bundle identifier, kind "software" and subtitle "AppSendr". The title followed by the extension is the file's base name |
| Manifests.AssetUrl | application.rb:112-120 | an observer, not a step of the service: how an installer looks up an asset by kind. It finds a URL exactly when some asset has that kind, and the URL is that asset's |
| Manifests.ManifestLeadsToAssets | application.rb:110-120 | the manifest has one item, its software package is the binary's URL and its display image is the icon URL |
| Manifests.ManifestTitleIsStem | application.rb:121-126 | the manifest title is `File.basename(filename, '.*')`, and followed by the file's extension it is the file's base name |
| Manifests.ManifestDeterminedBy | application.rb:110-128 | the manifest depends only on binary URL, icon URL, bundle identifier and display name |
| ObjectStore.ObjectPath | application.rb:168 | the path splits back into `app/` + key + `/` and the object's name: `icon.png` for an icon, the file name for a binary |
| ObjectStore.UploadToS3 | application.rb:161-171 | one write is appended, public-read, with the given bytes at `app/{key}/icon.png` or `app/{key}/{filename}`; earlier writes are kept |
| ObjectStore.PublicUrlsNameObjects | application.rb:35-42 | the icon URL is the asset URL followed by the icon object's path; the binary URL is the binary object's path with the file name escaped |
| ObjectStore.PathsDifferByName | application.rb:168 | a binary not named `icon.png` is stored at a path different from the icon's |
| ObjectStore.BinaryNeverOverwritesIcon | application.rb:168 | a binary with extension `.ipa` or `.apk` never shares its path with the icon of the same record |
| Routes.ExtensionAccepted | application.rb:67 | the proper-subset test holds exactly when the extension is `.ipa` or `.apk` |
| Routes.AcceptedPlainName | application.rb:67 | for an ordinary file name the test depends on the extension alone: accepted if and only if it is `.ipa` or `.apk` |
| Routes.ExtensionTestIsCaseSensitive | application.rb:67 | for any ordinary stem, `.ipa` and `.apk` pass while `.IPA` and `.APK` are refused |
| Routes.Accept | application.rb:74-102 | the icon is written first. If `App.create` hands back nothing: 400, store unchanged, icon write kept. If it hands back a resource, saved or not: the binary is written last and the answer is 201 with id, page URL, file name and time. A record is added if and only if it was saved: exactly one, under the fresh key, with the given file name and identifier, `installs == 0`, `icon` equal to whether an icon was sent, and the platform flag |
| Routes.AcceptWrites | application.rb:78-99 | the writes made through `_upload_to_s3` are the icon, if one was sent, then the binary, if `App.create` handed something back, appended after all earlier writes |
| Routes.Upload | application.rb:58-103 | no binary gives 400 "No binary file provided", a bad extension gives 400 "Invalid file type…", and both leave store and write log unchanged; a valid request uses a fresh generated id and proceeds as in `Accept`, with the platform flag true if and only if the extension is `.apk` |
| Routes.TrackInstall | application.rb:147-157 | unknown id gives 404 with the store unchanged; a known id gets its install count raised by exactly 1, and no other field or record changes. The redirect (302) goes to the binary URL for Android and to the `itms-services` manifest link otherwise |
| Routes.UploadKeepsInvariant | application.rb:85-94 | uploads keep every record under its own id, with an accepted extension and the platform flag it implies |
| Routes.TrackKeepsInvariant | application.rb:153-154 | counting installs keeps that invariant |
| Routes.TrackTimesCounts | application.rb:153-154 | `n` hits on a known id raise its install count by exactly `n` and change nothing else; on an unknown id they change nothing |
| Routes.TrackKeepsManifests | application.rb:110-128 | counting an install leaves every record's manifest unchanged |
| Routes.SuccessiveUploadsDistinct | application.rb:75-94 | two saved uploads in a row get different ids, and the second leaves the first record untouched |
| Routes.UploadThenTrack | application.rb:147-156 | after a saved upload the new id's track URL redirects to its install URL, counts one install and keeps the platform flag from the extension |
| Routes.UnsavedUploadLinkNotFound | application.rb:85-100 | when the resource handed back was not saved, the upload still answers 201 and writes the binary last, while the store is unchanged and the new id's track URL answers 404 |
| Routes.FirstTrack | application.rb:153-156 | the first hit on a fresh record redirects to its install URL and sets its count to 1 |
## Left out

- Sinatra routing, the landing page and the install page (`get '/'`, `get '/:id'`): ERB rendering and the HTTP layer. The JSON envelopes are kept only as the status, message and data fields of `UploadResponse`, and content-type headers are left out.
- DataMapper persistence and `auto_upgrade!`: the record store is an in-memory `map<string, App>`. What `App.create` does is the parameter `creation`. Which of its three outcomes DataMapper actually produces depends on the library, which is not part of this model. With DataMapper, `create` hands back the resource even when saving fails, so the `Refused` branch (400 "Problem creating app") may never be taken in practice.
- Saving the incremented install count in `get '/r/:id'`: the model assumes `@app.save` succeeds. The code ignores its result.
- Automatic timestamp updates on `save` that a persistence plugin might perform: the code does not set `updated_at` on a hit, and neither does the model.
- The S3 connection, credentials and bucket: an object-store write is a `Put` appended to a log, and failures of the object store are not modelled.
- `CGI.escape`: a parameter of the configuration, with no properties assumed.
- Plist serialisation of the manifest: the manifest is a datatype.
- `File.basename` and `File.extname` edge cases: a trailing '/', Windows separators, and a name ending in '.' follow the simplified rule in `PathNames`. Ruby versions differ on whether `File.extname("a.")` is `""` or `"."`. The model returns `"."`.
- Request parameters that are present but malformed: a binary without a file name raises in `File.extname`, and a missing identifier is `nil`. The model has a file name and an identifier string for every request.
- The manifest route for an unknown id: it sets 404, then dereferences the missing record. The manifest is modelled only for existing records.
- Concurrency: lost updates of `installs` and the race between the absence check and the insert.
- HashId.GenerateHashId: requires that the oracle eventually yields a candidate absent from the store. The source loops without bound, and a model without `decreases *` cannot express a non-terminating run.
- Routes.Upload: carries the same oracle requirement for valid requests, because it runs the generator.
- Routes.TrackInstall: the `itms-services` location is stated with the request's id only for stores in which every record sits under its own id, as the record store guarantees. For other maps it is stated through the record's own id.
