/**
 * The two HTTP handlers around the build: `upload_zip` (POST /upload),
 * which rejects a request in three ordered checks, saves the archive and
 * the optional icon, runs the build and maps its exception to a 500; and
 * `download_apk` (GET /download/<project_id>), which serves
 * `builds/<project_id>/app-debug.apk`.
 */
module Server {
  import opened Wrappers
  import opened Text
  import opened FileSystem
  import opened Layout
  import opened Pipeline

  /** An uploaded file part: the client's filename and the bytes. */
  datatype Part = Part(filename: string, content: string)

  /** A request's multipart files and form fields, by field name. */
  datatype Request = Request(files: map<string, Part>, form: map<string, string>)

  datatype Response =
    | Text(status: int, body: string)   // a `(body, status)` return
    | BuildFailed(error: BuildError)     // `f"Build failed: {e}", 500`
    | Crashed(cause: OsError)            // an exception the handler does not catch
    | SendFile(path: Path, content: string)
    | NotFound

  /** The HTTP status of a response; Flask answers an uncaught exception with 500. */
  function StatusOf(r: Response): int
  {
    match r
    case Text(status, _) => status
    case BuildFailed(_) => 500
    case Crashed(_) => 500
    case SendFile(_, _) => 200
    case NotFound => 404
  }

  /** The three rejections of `upload_zip`, in the order it makes them. */
  function Validate(req: Request): Option<Response>
  {
    if "file" !in req.files then Some(Text(400, "No file part"))
    else if req.files["file"].filename == "" then Some(Text(400, "No selected file"))
    else if !EndsWith(req.files["file"].filename, ".zip") then Some(Text(400, "Invalid file type"))
    else None
  }

  /** `uploads/<id>.zip`. */
  function ZipPath(id: string): Path
  {
    JoinPath(UploadFolder, id + ".zip")
  }

  /** `tmp/<id>_icon.png`. */
  function IconSavePath(id: string): Path
  {
    JoinPath(TmpFolder, id + "_icon.png")
  }

  /** `request.form.get(key)`: the field's text, or `None` when it was not sent. */
  function FormField(form: map<string, string>, key: string): Entry
  {
    if key in form then Str(form[key]) else NoneValue
  }

  /**
   * The settings `upload_zip` hands to the build: the three form fields,
   * each present, as the field's text or as `None` when it was not sent,
   * and `icon_path`, set only when an icon part came with the request.
   */
  function UploadSettings(req: Request, id: string): (s: Settings)
    ensures s.appName != Absent && s.packageName != Absent && s.version != Absent
    ensures "appName" in req.form ==> s.appName == Str(req.form["appName"])
    ensures "appName" !in req.form ==> s.appName == NoneValue
    ensures "packageName" in req.form ==> s.packageName == Str(req.form["packageName"])
    ensures "packageName" !in req.form ==> s.packageName == NoneValue
    ensures "version" in req.form ==> s.version == Str(req.form["version"])
    ensures "version" !in req.form ==> s.version == NoneValue
    ensures s.iconPath != NoneValue
    ensures s.iconPath.Str? <==> "icon" in req.files
  {
    Settings(FormField(req.form, "appName"), FormField(req.form, "packageName"), FormField(req.form, "version"),
             if "icon" in req.files then Str(Join(IconSavePath(id), "/")) else Absent)
  }

  /** `icon_file.save(icon_path)`, when an icon part came with the request. */
  function SaveIcon(fs: Tree, req: Request, id: string): Result<Tree, OsError>
  {
    if "icon" in req.files then WriteFile(fs, IconSavePath(id), req.files["icon"].content) else Ok(fs)
  }

  /** A handler's effect: the filesystem afterwards, and the response. */
  datatype Served = Served(fs: Tree, response: Response)

  /** `upload_zip`, with `id` the fresh `str(uuid.uuid4())`. */
  function Upload(fs: Tree, req: Request, id: string, unpack: string -> Archive, executable: bool): Served
  {
    match Validate(req)
    case Some(rejection) => Served(fs, rejection)
    case None =>
      match WriteFile(fs, ZipPath(id), req.files["file"].content)
      case Err(e) => Served(fs, Crashed(e))
      case Ok(withZip) =>
        match SaveIcon(withZip, req, id)
        case Err(e) => Served(withZip, Crashed(e))
        case Ok(saved) =>
          var o := Build(saved, UploadSettings(req, id), Some(id), id, ZipPath(id), unpack, executable);
          Served(o.fs, if o.result.Ok? then Text(200, "Build started!") else BuildFailed(o.result.error))
  }

  /**
   * A request is turned away exactly when it has no `file` part, or its
   * name is not some string followed by `.zip` (case-sensitive); each
   * rejection is a 400 that comes before anything is saved or built, and
   * the checks are made in order: the part, the empty name, the suffix.
   */
  lemma UploadRejects(fs: Tree, req: Request, id: string, unpack: string -> Archive, executable: bool)
    ensures Validate(req).None? <==> "file" in req.files && exists t :: req.files["file"].filename == t + ".zip"
    ensures Validate(req).Some? ==> StatusOf(Upload(fs, req, id, unpack, executable).response) == 400 && Upload(fs, req, id, unpack, executable).fs == fs
    ensures "file" !in req.files ==> Upload(fs, req, id, unpack, executable).response == Text(400, "No file part")
    ensures "file" in req.files && req.files["file"].filename == "" ==>
      Upload(fs, req, id, unpack, executable).response == Text(400, "No selected file")
    ensures "file" in req.files && req.files["file"].filename != "" && !EndsWith(req.files["file"].filename, ".zip") ==>
      Upload(fs, req, id, unpack, executable).response == Text(400, "Invalid file type")
  {
    if "file" in req.files {
      EndsWithIsConcat(req.files["file"].filename, ".zip");
    }
  }

  /**
   * Once the archive and the icon are saved, the response is 200 exactly
   * when the build returns, and a 500 carrying the exception otherwise.
   */
  lemma UploadStatus(fs: Tree, req: Request, id: string, unpack: string -> Archive, executable: bool)
    requires Validate(req).None? && WriteFile(fs, ZipPath(id), req.files["file"].content).Ok?
    requires SaveIcon(WriteFile(fs, ZipPath(id), req.files["file"].content).value, req, id).Ok?
    ensures var saved := SaveIcon(WriteFile(fs, ZipPath(id), req.files["file"].content).value, req, id).value;
      var o := Build(saved, UploadSettings(req, id), Some(id), id, ZipPath(id), unpack, executable);
      && (StatusOf(Upload(fs, req, id, unpack, executable).response) == 200 <==> o.result == Ok(id))
      && (o.result.Err? ==> Upload(fs, req, id, unpack, executable).response == BuildFailed(o.result.error))
      && StatusOf(Upload(fs, req, id, unpack, executable).response) in {200, 500}
  {
  }

  /** The upload's own paths: `uploads/<id>.zip` and `tmp/<id>_icon.png`. */
  lemma UploadPaths(id: string)
    requires PlainName(id)
    ensures ZipPath(id) == UploadFolder + [id + ".zip"]
    ensures IconSavePath(id) == TmpFolder + [id + "_icon.png"]
  {
    assert '/' !in id + ".zip" && '/' !in id + "_icon.png";
    JoinPlainName(UploadFolder, id + ".zip");
    JoinPlainName(TmpFolder, id + "_icon.png");
  }

  /** The `icon_path` the upload records names the file it saved, and the build's icon step reads that file. */
  lemma UploadIconSource(req: Request, id: string)
    requires PlainName(id) && "icon" in req.files
    ensures IconSource(UploadSettings(req, id)) == Some(IconSavePath(id))
  {
    UploadPaths(id);
    assert PlainName(id + "_icon.png") by {
      assert '/' !in id + "_icon.png";
    }
    PathStringResolves(IconSavePath(id));
  }

  /** `os.path.join(os.path.join(BUILD_FOLDER, project_id), 'app-debug.apk')`. */
  function ApkPath(projectId: string): Path
  {
    JoinPath(JoinPath(BuildFolder, projectId), "app-debug.apk")
  }

  /**
   * `download_apk(project_id)`: `send_from_directory` serves the file, or
   * answers 404 when there is no file there. The route's converter never
   * yields an empty id or one containing `/`.
   */
  function Download(fs: Tree, projectId: string): (r: Response)
    requires projectId != "" && '/' !in projectId
    ensures r == NotFound <==> !(ApkPath(projectId) in fs && fs[ApkPath(projectId)].File?)
    ensures r != NotFound ==> r == SendFile(ApkPath(projectId), fs[ApkPath(projectId)].content)
    ensures StatusOf(r) in {200, 404}
  {
    var p := ApkPath(projectId);
    if p in fs && fs[p].File? then SendFile(p, fs[p].content) else NotFound
  }

  /** Where a download looks: `builds/<id>/app-debug.apk` for an ordinary id; `.` and `..` move it up. */
  lemma ApkPathShape(projectId: string)
    requires projectId != "" && '/' !in projectId
    ensures ApkPath(projectId) ==
      if projectId == ".." then ["app-debug.apk"]
      else if projectId == "." then BuildFolder + ["app-debug.apk"]
      else BuildFolder + [projectId, "app-debug.apk"]
  {
    SplitNoChar(projectId, '/');
    var dir := JoinPath(BuildFolder, projectId);
    assert dir == Resolve(BuildFolder, [projectId]);
    assert [projectId][1..] == [];
    assert '/' !in "app-debug.apk";
    JoinPlainName(dir, "app-debug.apk");
  }

  /**
   * No upload makes a download succeed that failed before: nothing the
   * Python steps of the upload and the build write lands at
   * `builds/<id>/app-debug.apk`, for any id. Gradle's own writes are not
   * modelled.
   */
  lemma UploadLeavesNoApk(fs: Tree, req: Request, id: string, unpack: string -> Archive, executable: bool, other: string)
    requires WellFormed(fs) && PlainName(id) && Unpacks(unpack)
    requires other != "" && '/' !in other && Download(fs, other) == NotFound
    ensures Download(Upload(fs, req, id, unpack, executable).fs, other) == NotFound
  {
    ApkApart(id, other);
    UploadNoFileAt(fs, req, id, unpack, executable, ApkPath(other));
  }

  /** A path away from the engine directory, `tmp/<id>` and the two saved files holds no file after the upload if it held none before. */
  lemma UploadNoFileAt(fs: Tree, req: Request, id: string, unpack: string -> Archive, executable: bool, d: Path)
    requires WellFormed(fs) && PlainName(id) && Unpacks(unpack)
    requires Elsewhere(d, id) && d != ZipPath(id) && d != IconSavePath(id)
    requires !(d in fs && fs[d].File?)
    ensures var u := Upload(fs, req, id, unpack, executable).fs; !(d in u && u[d].File?)
  {
    if Validate(req).None? && WriteFile(fs, ZipPath(id), req.files["file"].content).Ok? {
      var withZip := WriteFile(fs, ZipPath(id), req.files["file"].content).value;
      WriteFileWellFormed(fs, ZipPath(id), req.files["file"].content);
      if SaveIcon(withZip, req, id).Ok? {
        var saved := SaveIcon(withZip, req, id).value;
        if "icon" in req.files {
          WriteFileWellFormed(withZip, IconSavePath(id), req.files["icon"].content);
        }
        assert Lookup(saved, d) == Lookup(fs, d);
        var settings := UploadSettings(req, id);
        BuildNoNewFiles(saved, settings, id, ZipPath(id), unpack);
        assert Upload(fs, req, id, unpack, executable).fs == Finished(saved, settings, id, ZipPath(id), unpack).fs;
      }
    }
  }

  /** The download path of any id lies apart from everything an upload with a plain id writes. */
  lemma ApkApart(id: string, other: string)
    requires PlainName(id) && other != "" && '/' !in other
    ensures Elsewhere(ApkPath(other), id)
    ensures ApkPath(other) != ZipPath(id) && ApkPath(other) != IconSavePath(id)
  {
    ApkPathShape(other);
    UploadPaths(id);
    JobDirs(id);
    var d := ApkPath(other);
    var top := d[0];
    assert top == "builds" || top == "app-debug.apk";
    assert top != EngineDir[0] && top != TmpFolder[0] && top != UploadFolder[0] by {
      assert top[0] == 'b' || top[0] == 'a';
    }
    OtherTop(EngineDir, d);
    OtherTop(TempDir(id), d);
  }

  /**
   * `upload_zip` on the disk: the three rejections, `file.save`, the
   * optional icon, then the build, whose exception becomes a 500.
   */
  method UploadZip(disk: Disk, channel: Channel, req: Request, freshId: string, unpack: string -> Archive,
                   executable: bool, gradleStatus: int)
    returns (resp: Response)
    requires disk.Valid() && Unpacks(unpack) && PlainName(freshId)
    modifies disk, channel
    ensures disk.Valid()
    ensures Served(disk.nodes, resp) == Upload(old(disk.nodes), req, freshId, unpack, executable)
    ensures channel.events == old(channel.events) + if StatusOf(resp) == 200 then [ApkReady("/download/" + freshId)] else []
  {
    var rejection := Validate(req);
    if rejection.Some? {
      return rejection.value;
    }
    var id := freshId;
    var zipPath := ZipPath(id);
    var e := disk.WriteText(zipPath, req.files["file"].content);
    if e.Some? {
      return Crashed(e.value);
    }
    if "icon" in req.files {
      e := disk.WriteText(IconSavePath(id), req.files["icon"].content);
      if e.Some? {
        return Crashed(e.value);
      }
    }
    var settings := UploadSettings(req, id);
    var r := BuildApk(disk, channel, zipPath, settings, Some(id), id, unpack, executable, gradleStatus);
    resp := if r.Ok? then Text(200, "Build started!") else BuildFailed(r.error);
  }
}
