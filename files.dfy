/** `files.rs`: where an input snapshot lives, and opening it for capture or
    for replay. */
module Files {
  import opened Wrappers
  import opened Labels
  import opened FileSystem

  const MISSING_SNAPSHOT: string :=
    "Missing snapshot file. Don't forget to run in capture mode with the -c flag"

  /** `format!("{}.snapshot", sanitize_label(label))`. */
  function SnapshotFileName(name: string): (file: string)
    ensures |file| == |name| + 9
    ensures file[|name|..] == ".snapshot"
    ensures file[..|name|] == SanitizeLabel(name)
  {
    SanitizeLabel(name) + ".snapshot"
  }

  /** Two labels share a snapshot file exactly when they sanitise to the same
      text; in particular labels that differ only in ASCII case, or in a space
      against a dash, collide. */
  lemma SnapshotFileNameCollides(a: string, b: string)
    ensures SnapshotFileName(a) == SnapshotFileName(b) <==> SanitizeLabel(a) == SanitizeLabel(b)
  {
    if SnapshotFileName(a) == SnapshotFileName(b) {
      assert SanitizeLabel(a) == SnapshotFileName(a)[..|a|];
    }
  }

  /** `get_or_create_input_snapshot_file(label, capture)` in the inputs
      directory `dir`: capture creates (truncates) the file, replay opens the
      existing one, and either failure aborts with the "missing snapshot file"
      message. */
  function GetOrCreateInputSnapshotFile(fs: Fs, dir: string, name: string, capture: bool)
    : (r: Result<(Fs, OpenedFile)>)
    ensures r.Ok? ==> r.value.1.path == Path(dir, SnapshotFileName(name))
    ensures capture ==> (r.Ok? <==> dir in fs.dirs)
    ensures capture && r.Ok? ==>
      r.value.1.content == [] && r.value.0.files == fs.files[Path(dir, SnapshotFileName(name)) := ""]
    ensures !capture ==> (r.Ok? <==> Path(dir, SnapshotFileName(name)) in fs.files)
    ensures !capture && r.Ok? ==>
      r.value.0 == fs && r.value.1.content == fs.files[Path(dir, SnapshotFileName(name))]
    ensures r.Err? ==> r.message == MISSING_SNAPSHOT
  {
    match CreateOrOpen(fs, Path(dir, SnapshotFileName(name)), capture)
    case Some(handle) => Ok(handle)
    case None => Err(MISSING_SNAPSHOT)
  }

  /** Replaying a label that was never captured aborts with the message telling
      the user to capture first; after a capture the same label opens. */
  lemma ReplayNeedsCapture(fs: Fs, dir: string, name: string)
    requires dir in fs.dirs
    requires Path(dir, SnapshotFileName(name)) !in fs.files
    ensures GetOrCreateInputSnapshotFile(fs, dir, name, false) == Err(MISSING_SNAPSHOT)
    ensures var captured := GetOrCreateInputSnapshotFile(fs, dir, name, true);
      captured.Ok? && GetOrCreateInputSnapshotFile(captured.value.0, dir, name, false).Ok?
  {
    CreateThenOpen(fs, Path(dir, SnapshotFileName(name)));
  }
}
