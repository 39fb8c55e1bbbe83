# web2apk: the build service and its upload client, in Dafny

web2apk turns an uploaded website archive into an Android project and asks
Gradle for a debug APK. This project models its core:

- **the build routine `build_apk`**. It wipes the shared template directory
  `engine/android-template/app` and the job's `tmp/<id>`, then extracts the
  archive into `tmp/<id>`. It lays every extracted entry over the template:
  files replace files and directories merge. Next it rewrites the manifest
  and `engine/build.gradle` with literal replace-all substitutions, and
  copies the launcher icon. Finally it creates `builds/<id>`, launches
  `./gradlew` in `engine/android-template` without looking at its exit
  status, and emits `apk_ready`;
- **the upload handler `upload_zip`**. It makes three ordered rejections,
  each a 400. It saves the archive and the optional icon, and turns a build
  exception into a 500;
- **the download handler `download_apk`**. It serves
  `builds/<id>/app-debug.apk`, or answers 404;
- **the browser helpers `handleFile` and `dataURLtoBlob`**. `handleFile`
  filters the chosen file by its `.zip` suffix and assembles the multipart
  form from the saved project. `dataURLtoBlob` turns the saved icon's data
  URL into a `Blob`.

The filesystem is a map from paths to files or directories, relative to the
application's base directory (`FileSystem.Tree`). Each step of `build_apk` is
a function from one map to the next, with the exception it may raise
(`Pipeline.Reset`, `Unpack`, `Merge`, `PatchFile`, `ApplyIcon`, `Finish`).
The routine itself is a method, `Pipeline.BuildApk`, on a `Disk` object whose
`nodes` field it changes. Its contract ties the new `nodes` to those
functions. The copy loop is a `while` loop over the extracted entries; its
invariant describes the template entry by entry. The lemmas state what the
service promises about outcomes:

- what exists after staging;
- that the merge overlays without deleting;
- the exact rewritten texts, and when the rewrite raises;
- that once a build has written a version without `1.0.0` into `build.gradle`,
  later builds keep it;
- that nothing the Python steps of an upload write makes an APK appear at a
  download path.

Modules:

- `Wrappers` holds `Option` and `Result`.
- `Text` holds Python's `str.replace` and `str.split`, the suffix test, and the newline translation of text-mode reads.
- `FileSystem` holds paths, trees, the `os` and `shutil` operations, and the
  `Disk` class.
- `Layout` holds the service's directories and the joins that locate the
  manifest, `build.gradle` and the icon.
- `Pipeline` holds `build_apk`.
- `Server` holds `upload_zip` and `download_apk`.
- `Client` holds `app.js`.

This follows the code in places where a reading of the code's intent might
differ:

- `upload_zip` always passes `appName`, `packageName` and `version`, as
  `None` when the form lacks them. So the `.get` defaults of `build_apk`
  never apply to an upload. A missing name or package raises `TypeError` as
  soon as the archive has a manifest, and the upload answers 500
  (`Pipeline.NoneNameRaises`). `Client.SentIsAccepted` shows that the
  browser leaves a field out exactly when the saved value is falsy.
- The manifest is patched package first, then name. A package name that
  contains `APP_NAME` is rewritten as well (`Pipeline.PackageNameRenamedToo`).
- Both patched files are read in text mode, so a `\r\n` or a lone `\r`
  comes back as `\n` and the file is written back with `\n` line ends
  (`Text.Universal`, `Pipeline.PatchFileEffect`). A file without `\r` is
  patched exactly as it is (`Text.UniversalNoCR`).
- `check=False` only stops Gradle's exit status from raising. Launching
  still raises when `engine/android-template/gradlew` is missing
  (`FileNotFoundError`), a directory or not executable (`PermissionError`).
  That launcher lies beside the wiped template, so no upload can supply it.
  Without it every build raises after all its filesystem steps, emits
  nothing, and the upload answers 500 (`Pipeline.LaunchOutcome`).
- `build.gradle` lies two levels above the wiped directory, so it survives
  between builds. Once a build has written a version that does not contain
  `1.0.0`, later builds keep it, whatever version they ask for
  (`Pipeline.VersionKeptOnRebuild`). A version that contains `1.0.0`, such as
  `1.0.0` itself or `11.0.0`, leaves the placeholder in place, and so does a
  build that raises before the gradle patch.
- Nothing the Python steps of the upload and the build write lands at
  `builds/<id>/app-debug.apk`. The model proves that these steps never turn a
  404 download into a served file (`Server.UploadLeavesNoApk`). Gradle's own
  writes are not modelled.

## Model

| member | source | states |
|---|---|---|
| `Text.Find` | app.py:84-85 | the leftmost occurrence of the pattern: it matches there, nowhere earlier, and `None` means no occurrence at all |
| `Text.ReplaceAllIsSplitJoin` | app.py:84-85 | `str.replace` equals the reference `r.join(s.split(p))`: leftmost, non-overlapping, every occurrence |
| `Text.SplitJoinInverse` | app.py:84-85 | joining the pieces of a split with the same separator gives back the string |
| `Text.JoinSplitInverse` | app.js:71 | splitting a join of comma-free pieces at the comma gives back the pieces |
| `Text.SplitPiecesFree` | app.js:71 | no piece of a split contains the separator |
| `Text.ReplaceAllAbsent` | app.py:92 | text without the pattern is left unchanged |
| `Text.ReplaceAllSelf` | app.py:92 | replacing a placeholder by itself, as the defaults do, changes nothing |
| `Text.ReplaceAllIdempotent` | app.py:92 | a replacement that removes every occurrence changes nothing when applied again |
| `Text.UniversalNoCR` | app.py:82-83 | text without a carriage return reads back in text mode exactly as it is stored |
| `Text.UniversalClean` | app.py:82-83 | no carriage return survives a text-mode read |
| `Text.UniversalIdempotent` | app.py:82-83 | reading text that is already translated changes nothing more |
| `Text.UniversalIsReplace` | app.py:82-83 | the universal-newline translation equals the reference `s.replace('\r\n', '\n').replace('\r', '\n')` |
| `Text.EndsWithIsConcat` | app.py:181 | the case-sensitive suffix test holds exactly when the name is some string followed by the suffix |
| `FileSystem.JoinPathOf` | app.py:80 | `os.path.join` of a base and a relative text resolves the text's components, `..` and `.` included, against the base |
| `FileSystem.JoinPlainName` | app.py:50-51 | joining a name without `/` appends exactly that one component |
| `FileSystem.PruneWellFormed` | app.py:55 | removing a subtree keeps the tree well formed |
| `FileSystem.MakeDirsWellFormed` | app.py:56 | `os.makedirs(exist_ok=True)` keeps the tree well formed and leaves the whole chain of directories |
| `FileSystem.GraftWellFormed` | app.py:72 | laying a fitting tree over a directory keeps the filesystem well formed |
| `FileSystem.CopyTreeWellFormed` | app.py:72 | `copytree(dirs_exist_ok=True)` keeps the filesystem well formed |
| `FileSystem.UnpackWellFormed` | app.py:65 | extracting a well-formed archive tree into an empty directory keeps the filesystem well formed |
| `FileSystem.WriteFileWellFormed` | app.py:86-87 | writing a file keeps the tree well formed |
| `FileSystem.Disk.RemoveTree` | app.py:55 | `shutil.rmtree` either raises and changes nothing, or removes exactly the subtree |
| `FileSystem.Disk.MakeDirectories` | app.py:56 | `os.makedirs(exist_ok=True)` on the disk: its error, or the new tree |
| `FileSystem.Disk.ReadText` | app.py:82-83 | a file gives its text with line ends translated; a directory raises `IsADirectoryError`; a missing path raises `NotADirectoryError` when a file lies on the way, and `FileNotFoundError` otherwise |
| `FileSystem.Disk.WriteText` | app.py:86-87 | writing a file: its error and no change, or the new tree |
| `FileSystem.Disk.CopyDirectory` | app.py:72 | `copytree(dirs_exist_ok=True)` on the disk: its error and no change, or the merged tree |
| `FileSystem.Disk.Extract` | app.py:65 | `unpack_archive` into an empty directory: its error, or the tree grafted there |
| `FileSystem.Disk.Copy2` | app.py:74 | `shutil.copy2` on the disk: its error and no change, or the copied file |
| `FileSystem.Disk.Run` | app.py:106-110 | launching `./<program>` in `cwd` raises when `cwd` is missing or not a directory, `FileNotFoundError` when the program is missing, and `PermissionError` when it is a directory or not executable; otherwise it starts |
| `Layout.ManifestLayout` | app.py:79 | the manifest is `engine/android-template/app/src/main/AndroidManifest.xml` |
| `Layout.GradleLayout` | app.py:80 | `ANDROID_TEMPLATE + '../../build.gradle'` is `engine/build.gradle`, which is outside the wiped template |
| `Layout.IconLayout` | app.py:97 | the launcher icon is `…/app/src/main/res/mipmap-xxxhdpi/ic_launcher.png` inside the template |
| `Layout.GradleCwdLayout` | app.py:108 | Gradle's working directory `engine/android-template` resolves to that two-component path |
| `Layout.GradlewApart` | app.py:106-109 | that directory is the template's parent, and the launcher in it lies neither inside the template nor on the way to it |
| `Layout.JobDirs` | app.py:50-51 | for a plain id, `tmp/<id>` and `builds/<id>` are one component below their folders, and `tmp/<id>` is apart from the template |
| `Pipeline.ManifestSubstitution` | app.py:81-87 | the manifest patch succeeds exactly when neither name is a present `None`; otherwise it raises `TypeError`; on success the text is the package substitution followed by the name substitution, against the split/join reference |
| `Pipeline.PackageNameRenamedToo` | app.py:84-85 | because the name substitution runs second, a manifest holding just the package placeholder becomes the package name with its own `APP_NAME`s replaced |
| `Pipeline.ManifestDefaults` | app.py:84-85 | with both keys missing the package stays and `APP_NAME` becomes `MyApp` |
| `Pipeline.GradleSubstitution` | app.py:92 | the gradle patch succeeds exactly when the version is not a present `None`; otherwise it raises `TypeError`; a given version replaces every `1.0.0`, and a missing key changes nothing |
| `Pipeline.VersionKeptOnRebuild` | app.py:89-94 | once `build.gradle` holds no `1.0.0`, a later build leaves it as it is, whatever version that build asks for |
| `Pipeline.MergeSpec` | app.py:68-74 | the copy loop's result: each source entry lands under the same relative path; entries of the target the source lacks survive; nothing outside the target changes |
| `Pipeline.MergeWellFormed` | app.py:68-74 | the merged filesystem is well formed |
| `Pipeline.CopyEntries` | app.py:68-75 | the `for item in os.listdir` loop, in whatever order the entries come, leaves the disk equal to the merge |
| `Pipeline.CopyItem` | app.py:69-74 | one turn of the loop: an entry that is a directory is merged with `copytree` and any other is copied with `copy2`, and either way the loop invariant advances by that entry |
| `Pipeline.CopyDirItem` | app.py:71-72 | one directory entry is merged into the template and the loop invariant advances |
| `Pipeline.CopyFileItem` | app.py:73-74 | one file entry replaces its target and the loop invariant advances |
| `Pipeline.ResetBlocked` | app.py:54-56 | when a file lies on the way to the directory, staging raises and changes nothing |
| `Pipeline.ResetClear` | app.py:54-56 | otherwise the directory ends up an empty directory chain, its ancestors become directories, and nothing else changes |
| `Pipeline.StagedOutcome` | app.py:54-61 | staging succeeds exactly when no file blocks the template or `tmp/<id>`; then both exist and are empty whatever they held before, and every other path is as before apart from the new parent directories |
| `Pipeline.ExtractedOutcome` | app.py:65 | extraction succeeds exactly when the archive yields a tree; `tmp/<id>` then holds exactly that tree and nothing else changes |
| `Pipeline.MergedOutcome` | app.py:68-75 | after the merge the template holds exactly the extracted tree, and nothing outside the template changes |
| `Pipeline.PatchFileEffect` | app.py:79-94 | a missing file is skipped without error; a file is rewritten with the substitution of its text-mode reading (`\r\n` and `\r` as `\n`), or the exception leaves it untouched; a directory there raises; no other path changes |
| `Pipeline.ApplyIconEffect` | app.py:97-99 | without a truthy `icon_path` naming an existing path nothing happens; an existing source file is copied over the launcher icon; the copy raises and changes nothing when the `mipmap-xxxhdpi` directory is missing; nothing outside the icon path changes |
| `Pipeline.BuildDirEffect` | app.py:102 | creating `builds/<id>` raises and changes nothing, or turns exactly the paths on the way to it into directories |
| `Pipeline.FinishFrame` | app.py:79-102 | once the template is merged, the rest of the routine changes only the manifest, `build.gradle`, what lies at or below the icon path, and the directories on the way to `builds/<id>`; the two patches succeed |
| `Pipeline.ManifestOutcome` | app.py:79-87 | after a successful build the manifest exists exactly when the archive had `src/main/AndroidManifest.xml`, and then holds that file's text, line ends translated, with both substitutions applied, and neither name is `None` |
| `Pipeline.NoneNameRaises` | app.py:84-85 | a present `None` package or app name, with a manifest in the archive, stops the build with `TypeError` right after the merge |
| `Pipeline.GradleUntilMerge` | app.py:54-75 | staging, extraction and merge never touch `engine/build.gradle` |
| `Pipeline.GradleOutcome` | app.py:89-94 | after a successful build a missing `build.gradle` is still missing, and an existing one holds its old text, line ends translated, with every `1.0.0` replaced by the version, which is not `None` |
| `Pipeline.BuildNoNewFiles` | app.py:45-102 | outside the engine directory and `tmp/<id>` the routine creates or changes no file |
| `Pipeline.GradlewUntouched` | app.py:53-110 | the filesystem steps leave `engine/android-template/gradlew` as it was, and its directory exists when Gradle is launched |
| `Pipeline.LaunchOutcome` | app.py:106-110 | once the filesystem steps succeed, the build returns exactly when the launcher was a file before the build and is executable; a missing launcher raises `FileNotFoundError`, a directory or a non-executable one `PermissionError` |
| `Pipeline.BuildReturnsId` | app.py:45-119 | the routine returns exactly when no filesystem step raised and launching Gradle did not raise; it returns the caller's id when one was passed and the fresh id otherwise; the fresh id plays no part when the caller passed one |
| `Pipeline.ResetDirectory` | app.py:54-56 | the rmtree-then-makedirs pair on the disk has the effect of `Reset` |
| `Pipeline.ExtractInto` | app.py:65 | the extraction on the disk has the effect of `Unpack` |
| `Pipeline.PatchOnDisk` | app.py:81-94 | the read-replace-write of one file on the disk has the effect of `PatchFile` |
| `Pipeline.IconOnDisk` | app.py:97-99 | the icon copy on the disk has the effect of `ApplyIcon` |
| `Pipeline.BuildSteps` | app.py:53-102 | the filesystem steps on the disk leave exactly the filesystem `Finished` describes, with the first exception raised |
| `Pipeline.BuildApk` | app.py:45-119 | the routine on the disk leaves exactly the filesystem `Build` describes and returns or raises as it says, a failed Gradle launch included; `apk_ready` with `/download/<id>` is emitted exactly when it returns, whatever Gradle's exit status |
| `Pipeline.Channel.Emit` | app.py:113-116 | emitting appends the event to the log |
| `Server.UploadSettings` | app.py:189-199 | the build receives all three form keys, each the form field's text when it was sent and `None` when it was not, and an `icon_path` exactly when an icon part was sent |
| `Server.UploadRejects` | app.py:175-182 | a request goes on exactly when it has a `file` part whose name is some string followed by `.zip`; otherwise the answer is a 400 and nothing is saved or built: "No file part" without the part, "No selected file" for an empty name, "Invalid file type" for a non-empty name without the suffix |
| `Server.UploadStatus` | app.py:201-205 | once the files are saved, the answer is 200 exactly when the build returns, and otherwise a 500 carrying the build's exception |
| `Server.UploadPaths` | app.py:185-197 | the archive is saved as `uploads/<id>.zip` and the icon as `tmp/<id>_icon.png` |
| `Server.UploadIconSource` | app.py:195-199 | the `icon_path` the upload records is the file it saved, and that file is what the build copies |
| `Server.ApkPathShape` | app.py:212-214 | a download looks in `builds/<id>/app-debug.apk`; the ids `..` and `.` move it up |
| `Server.ApkApart` | app.py:212-214 | the download path of any id lies apart from everything an upload writes |
| `Server.UploadNoFileAt` | app.py:184-205 | a path apart from the engine directory, `tmp/<id>` and the two saved files holds no file after an upload unless it held one before |
| `Server.Download` | app.py:210-214 | for an id the route accepts (non-empty, without `/`), the download serves the file at the apk path with its contents when a file is there, and answers 404 exactly when none is |
| `Server.UploadLeavesNoApk` | app.py:210-214 | a download that finds nothing before an upload finds nothing after it, as far as the Python steps of the upload and the build go; Gradle's own writes are not modelled |
| `Server.UploadZip` | app.py:173-205 | the handler on the disk leaves the filesystem `Upload` describes and answers as it says, a 500 when Gradle cannot be launched included; `apk_ready` is emitted exactly when the answer is 200 |
| `Client.CloseFrom` | app.js:72 | the lazy `.*?;` from a position ends at the first `;` reached with no line terminator before it, and fails exactly when there is no such `;` |
| `Client.MatchFrom` | app.js:72 | the leftmost position where `/:(.*?);/` matches, and no match at all when it returns nothing |
| `Client.MatchMimeSpec` | app.js:72 | the MIME type is the group of the leftmost match; there is none exactly when no `:` is followed on its line by a `;` |
| `Client.BlobType` | app.js:77 | the type the `Blob` records is the given type in ASCII lower case, or empty when it has a non-printable character |
| `Client.ByteString` | app.js:74-76 | the bytes have the decoded string's length, and byte `k` is the code of character `k` modulo 256 |
| `Client.DataUrlBlob` | app.js:71-73 | for `data:<mime>;base64,<payload>` the type is `<mime>` and the payload after the comma is what is decoded; a payload `atob` rejects makes the call throw |
| `Client.BlobKeepsCodes` | app.js:74-77 | with a decoder that yields bytes, the array holds exactly the character codes of the decoded string |
| `Client.DataUrlToBlob` | app.js:70-78 | the method computes `ToBlob`: a missing MIME match throws `TypeError`, a rejected payload throws, and otherwise the countdown loop writes indices n-1 down to 0, each exactly once |
| `Client.FieldEntriesSpec` | app.js:44-47 | the settings entries are one text entry per truthy field, holding `String()` of it, in the fields' order |
| `Client.AppendSettings` | app.js:44-47 | the four conditional appends add exactly the settings entries to the form |
| `Client.HandleFile` | app.js:29-62 | the handler does what `Handling` says: ignore, reject, throw or send |
| `Client.HandlingFilter` | app.js:30-37 | no file does nothing; a name without the case-sensitive `.zip` suffix shows the error status and sends nothing; a `.zip` name shows the selection before anything can throw or be sent |
| `Client.SentForm` | app.js:39-52 | the form sent starts with the file and holds each setting exactly when it is truthy, as its text; it holds `icon` exactly when the saved icon is truthy, as a `Blob` named `icon.png` |
| `Client.SentFormOrder` | app.js:40-52 | the form's fields come in the order file, appName, packageName, version, targetUrl, icon |
| `Client.SentIsAccepted` | app.js:39-52 | every form the browser sends passes the server's three checks; the server's settings are the saved text of each truthy field, or `None`, and the icon path is set exactly when the saved icon is truthy |

## Left out

- Flask routing, `render_template` and the static route (app.py:125-137) are web plumbing.
- `upload_project` (app.py:142-168) only stores a dictionary as JSON.
- The zip format and the internals of `shutil.unpack_archive`. Extraction is a parameter `unpack` from the archive's text to a tree or an error. `Unpacks` requires it to yield well-formed trees.
- What `./gradlew assembleDebug` does once it is running. Its exit status is a parameter of `Pipeline.BuildApk` that nothing depends on, as `check=False` makes it. Its effect on the filesystem is not modelled. The tree records no file modes, so whether the launcher may be executed is the parameter `executable`. Launch failures other than a missing or unusable working directory or launcher, such as an exec format error, are not modelled.
- Socket.IO transport. `apk_ready` is recorded in the `Channel` event log. The client's `apk_ready` listener (app.js:83-92) is not modelled.
- `uuid.uuid4()` is the parameter `freshId`. `Pipeline.BuildApk` and `Server.UploadZip` require it, or the caller's id, to be a plain name without `/`, `.` or `..`, as uuid strings are.
- The `print` calls, the absolute `BASE_DIR` (paths are relative to it), the exact exception messages, and binary file contents. Files hold text; UTF-8 decoding and its `UnicodeDecodeError` are not modelled. Text-mode writes translate `\n` to `os.linesep`, which is `\n` on the POSIX systems the service runs on; Windows line ends are not modelled.
- Concurrent requests sharing the template directory.
- `Pipeline.CopyEntries`: the overlay requires that no source entry meets a target entry of the other kind (a file over a directory or the reverse). Python's behaviour in those cases is not modelled. The build always meets the requirement, because the template has just been emptied.
- `Pipeline.ApplyIconEffect`: the exact write is stated when the icon's parent directory exists and the icon path is not a directory. A missing `mipmap-xxxhdpi` directory makes `copy2` raise, which is stated, with the filesystem unchanged; the exception's exact type is not. `copy2` of a file onto itself (`SameFileError`) is not modelled.
- `Server.UploadLeavesNoApk`: covers only what the Python steps of the upload and the build write. Gradle runs the module build script the archive supplies, and whatever that script writes, an APK under `builds/<id>` included, is not modelled.
- `Server.UploadSettings`: the recorded `icon_path` is the base-relative path, not `os.path.join`'s absolute one.
- DOM events, `fetch`, `localStorage`, `alert` and the status colour. `handleFile` takes the chosen file as an option and the saved project as an already parsed value. A malformed saved project, where `JSON.parse` throws, and the asynchronous status update after the request are not modelled.
- `Client.ToText`: JSON numbers are integers. Non-integer numbers and their `String()` form are not modelled. Arrays and objects carry the text `String()` gives them.
- `atob` is a parameter, trusted to decode base64 as in section 4 of RFC 4648. `None` stands for the `InvalidCharacterError` it throws. `Client.BlobKeepsCodes` requires it to yield only characters below 256.
- JavaScript strings are UTF-16. The MIME pattern and `charCodeAt` are modelled on code points, which agree for the decoder's output.
