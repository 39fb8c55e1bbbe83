/** Where the service keeps things, relative to its base directory, and what the joined paths resolve to. */
module Layout {
  import opened Text
  import opened FileSystem

  const UploadFolder: Path := ["uploads"]
  const BuildFolder: Path := ["builds"]
  const TmpFolder: Path := ["tmp"]
  /** The directory that holds the Android project and its `build.gradle`. */
  const EngineDir: Path := ["engine"]
  /** The shared Android template every build overwrites. */
  const TemplateDir: Path := ["engine", "android-template", "app"]

  const ManifestRel: string := "src/main/AndroidManifest.xml"
  const GradleRel: string := "../../build.gradle"
  const IconRel: string := "src/main/res/mipmap-xxxhdpi/ic_launcher.png"

  /** Where the manifest sits inside an uploaded project. */
  const ManifestInProject: Path := ["src", "main", "AndroidManifest.xml"]
  /** Where the launcher icon sits inside an uploaded project. */
  const IconInProject: Path := ["src", "main", "res", "mipmap-xxxhdpi", "ic_launcher.png"]
  const GradleUp: seq<string> := ["..", "..", "build.gradle"]

  /** The paths the joins of the three relative names resolve to (`ManifestLayout`, `GradleLayout`, `IconLayout`). */
  const ManifestPath: Path := TemplateDir + ManifestInProject
  const GradlePath: Path := ["engine", "build.gradle"]
  const IconPath: Path := TemplateDir + IconInProject

  /** `engine/android-template`, the working directory of `./gradlew assembleDebug`, and the launcher's name there. */
  const GradleCwdRel: string := "engine/android-template"
  const GradleCwd: Path := ["engine", "android-template"]
  const Gradlew: string := "gradlew"
  /** The launcher `engine/android-template/gradlew`: beside the template, not inside it. */
  const GradlewPath: Path := GradleCwd + [Gradlew]

  /** The job's temporary directory `tmp/<id>`. */
  function TempDir(id: string): Path
  {
    JoinPath(TmpFolder, id)
  }

  /** The job's build directory `builds/<id>`. */
  function BuildDir(id: string): Path
  {
    JoinPath(BuildFolder, id)
  }

  lemma ManifestSplit()
    ensures Split(ManifestRel, "/") == ManifestInProject
  {
    assert ManifestRel == Join(ManifestInProject, "/");
    JoinSplitInverse(ManifestInProject, '/');
  }

  /** `os.path.join(ANDROID_TEMPLATE, 'src/main/AndroidManifest.xml')` is the manifest inside the template. */
  lemma ManifestLayout()
    ensures JoinPath(TemplateDir, ManifestRel) == ManifestPath
  {
    ManifestSplit();
    ManifestResolve();
  }

  lemma ManifestResolve()
    ensures Resolve(TemplateDir, ManifestInProject) == TemplateDir + ManifestInProject
  {
    ResolvePlain(TemplateDir, ManifestInProject);
  }

  lemma GradleSplit()
    ensures Split(GradleRel, "/") == GradleUp
  {
    assert GradleRel == Join(GradleUp, "/");
    JoinSplitInverse(GradleUp, '/');
  }

  lemma GradleResolve()
    ensures Resolve(TemplateDir, GradleUp) == ["engine", "build.gradle"]
  {
    assert GradleUp[1..] == ["..", "build.gradle"] && GradleUp[1..][1..] == ["build.gradle"];
    assert Parent(TemplateDir) == ["engine", "android-template"];
    assert Parent(["engine", "android-template"]) == ["engine"];
    ResolvePlain(["engine"], ["build.gradle"]);
  }

  /** `ANDROID_TEMPLATE + '../../build.gradle'` resolves two levels above the template, outside the directory the build wipes. */
  lemma GradleLayout()
    ensures JoinPath(TemplateDir, GradleRel) == GradlePath
    ensures !Within(TemplateDir, GradlePath)
  {
    GradleSplit();
    GradleResolve();
  }

  lemma JoinFive(a: string, b: string, c: string, d: string, e: string, sep: string)
    ensures Join([a, b, c, d, e], sep) == a + sep + b + sep + c + sep + d + sep + e
  {
    JoinCons(d, [e], sep);
    JoinCons(c, [d, e], sep);
    JoinCons(b, [c, d, e], sep);
    JoinCons(a, [b, c, d, e], sep);
    assert [d] + [e] == [d, e] && [c] + [d, e] == [c, d, e];
    assert [b] + [c, d, e] == [b, c, d, e] && [a] + [b, c, d, e] == [a, b, c, d, e];
  }

  lemma IconJoin()
    ensures IconRel == Join(IconInProject, "/")
  {
    JoinFive("src", "main", "res", "mipmap-xxxhdpi", "ic_launcher.png", "/");
    assert "src" + "/" + "main" == "src/main";
    assert "src/main" + "/" + "res" == "src/main/res";
    assert "src/main/res" + "/" + "mipmap-xxxhdpi" == "src/main/res/mipmap-xxxhdpi";
    assert "src/main/res/mipmap-xxxhdpi" + "/" + "ic_launcher.png" == IconRel;
  }

  lemma IconSplit()
    ensures Split(IconRel, "/") == IconInProject
  {
    IconJoin();
    assert forall k :: 0 <= k < |IconInProject| ==> '/' !in IconInProject[k];
    JoinSplitInverse(IconInProject, '/');
  }

  /** `os.path.join(ANDROID_TEMPLATE, 'src/main/res/mipmap-xxxhdpi/ic_launcher.png')` is the icon inside the template. */
  lemma IconLayout()
    ensures JoinPath(TemplateDir, IconRel) == IconPath
  {
    IconSplit();
    IconResolve();
  }

  lemma IconResolve()
    ensures Resolve(TemplateDir, IconInProject) == TemplateDir + IconInProject
  {
    ResolvePlain(TemplateDir, IconInProject);
  }

  lemma GradleCwdSplit()
    ensures Split(GradleCwdRel, "/") == GradleCwd
  {
    JoinCons("engine", ["android-template"], "/");
    assert ["engine"] + ["android-template"] == GradleCwd;
    assert GradleCwdRel == Join(GradleCwd, "/");
    JoinSplitInverse(GradleCwd, '/');
  }

  lemma GradleCwdResolve()
    ensures Resolve([], GradleCwd) == GradleCwd
  {
    ResolvePlain([], GradleCwd);
  }

  /**
   * `os.path.join(BASE_DIR, 'engine/android-template')` is the directory
   * holding the template (`GradlewApart`: the launcher in it is not wiped
   * or written by the build).
   */
  lemma GradleCwdLayout()
    ensures JoinPath([], GradleCwdRel) == GradleCwd
  {
    GradleCwdSplit();
    GradleCwdResolve();
  }

  /** The launcher sits in the template's parent directory, neither inside the template nor on the way to it. */
  lemma GradlewApart()
    ensures GradleCwd == Parent(TemplateDir)
    ensures !Within(TemplateDir, GradlewPath) && GradlewPath !in Ancestors(TemplateDir)
  {
    assert GradlewPath[2] != TemplateDir[2];
    forall k | 0 < k <= |TemplateDir|
      ensures GradlewPath != TemplateDir[..k]
    {
      assert |TemplateDir[..k]| == k;
      if k == 3 {
        assert TemplateDir[..k] == TemplateDir;
      }
    }
  }

  /** The per-job directories of a plain id are `tmp/<id>` and `builds/<id>`, and they lie apart from the template. */
  lemma JobDirs(id: string)
    requires PlainName(id)
    ensures TempDir(id) == TmpFolder + [id] && BuildDir(id) == BuildFolder + [id]
    ensures Disjoint(TempDir(id), TemplateDir)
  {
    JoinPlainName(TmpFolder, id);
    JoinPlainName(BuildFolder, id);
    assert (TmpFolder + [id])[0] != TemplateDir[0];
  }
}
