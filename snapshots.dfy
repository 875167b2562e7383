/** `snapshots.rs`: the older naming of input snapshots (`.ron` files) and of
    the video capture. */
module Snapshots {
  import opened Wrappers
  import opened Labels
  import opened FileSystem

  const UNWRAP_FAILED: string := "called `Result::unwrap()` on an `Err` value"

  /** `format!("{}.ron", sanitize_label(label))`. */
  function InputFileName(name: string): (file: string)
    ensures |file| == |name| + 4
    ensures file[|name|..] == ".ron"
    ensures file[..|name|] == SanitizeLabel(name)
  {
    SanitizeLabel(name) + ".ron"
  }

  /** The input file name holds no space and no upper-case ASCII letter. */
  lemma InputFileNameIsPathSafe(name: string)
    ensures ' ' !in InputFileName(name)
    ensures forall c :: c in InputFileName(name) ==> !IsAsciiUpper(c)
  {
    SanitizeLabelChars(name);
    var file := InputFileName(name);
    assert file == SanitizeLabel(name) + ".ron";
    forall c | c in file ensures c != ' ' && !IsAsciiUpper(c) {
      var i :| 0 <= i < |file| && file[i] == c;
      if i < |name| {
        assert c in SanitizeLabel(name);
      }
    }
  }

  /** `get_or_create_input_snapshot_file(label, snapshot)` in the inputs
      directory `dir`: `snapshot` creates (truncates) the file, otherwise the
      existing file is opened; a failure panics through `unwrap`. */
  function GetOrCreateInputSnapshotFile(fs: Fs, dir: string, name: string, snapshot: bool)
    : (r: Result<(Fs, OpenedFile)>)
    ensures r.Ok? ==> r.value.1.path == Path(dir, InputFileName(name))
    ensures snapshot ==> (r.Ok? <==> dir in fs.dirs)
    ensures !snapshot ==> (r.Ok? <==> Path(dir, InputFileName(name)) in fs.files)
    ensures snapshot && r.Ok? ==>
      r.value.1.content == [] && r.value.0.files == fs.files[Path(dir, InputFileName(name)) := ""]
    ensures !snapshot && r.Ok? ==>
      r.value.0 == fs && r.value.1.content == fs.files[Path(dir, InputFileName(name))]
    ensures r.Err? ==> r.message == UNWRAP_FAILED
  {
    match CreateOrOpen(fs, Path(dir, InputFileName(name)), snapshot)
    case Some(handle) => Ok(handle)
    case None => Err(UNWRAP_FAILED)
  }

  /** The file name `capture_video_snapshots` builds inline from the test
      label: `label.replace(" ", "-").to_ascii_lowercase()`. */
  function VideoFileName(name: string): (file: string)
    ensures file == SanitizeLabel(name)
  {
    ToAsciiLowercase(Replace(name, ' ', '-'))
  }

  /** The video and the input snapshot of one test share the sanitised label
      as their stem. */
  lemma VideoAndInputShareStem(name: string)
    ensures InputFileName(name) == VideoFileName(name) + ".ron"
  {
  }
}
