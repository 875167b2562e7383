/** The part of `std::path` and `std::fs` the harness relies on: a path is a
    directory joined with one file-name component, and the file system is a set
    of existing directories plus the text of every existing file. */
module FileSystem {
  import opened Wrappers

  /** `Path::new(dir).join(name)` for a `name` that is one path component. */
  datatype Path = Path(dir: string, name: string)

  datatype Fs = Fs(dirs: set<string>, files: map<Path, string>)

  /** A file name `Path::join` appends as exactly one component: not empty, no
      separator, and not one of the special names `.` and `..`. */
  predicate IsPlainComponent(name: string) {
    name != [] && '/' !in name && name != "." && name != ".."
  }

  /** Index of the last `.` in `s`, if any. */
  function LastDot(s: string): (r: Option<nat>)
    ensures r.None? <==> '.' !in s
    ensures r.Some? ==> r.value < |s| && s[r.value] == '.' && '.' !in s[r.value + 1..]
  {
    if s == [] then None
    else if s[|s| - 1] == '.' then Some(|s| - 1)
    else
      var r := LastDot(s[..|s| - 1]);
      assert s == s[..|s| - 1] + [s[|s| - 1]];
      r
  }

  /** `Path::file_stem` of a plain component: everything before the last `.`,
      unless there is no `.` or the only `.` that could split it is the leading one. */
  function FileStem(name: string): (stem: string)
  {
    match LastDot(name)
    case None => name
    case Some(k) => if k == 0 then name else name[..k]
  }

  /** `Path::with_extension(ext)` on a plain component with a non-empty `ext`:
      the stem, a dot, and the new extension. */
  function WithExtension(name: string, ext: string): (r: string)
    requires IsPlainComponent(name) && ext != []
  {
    FileStem(name) + "." + ext
  }

  /** `with_extension` cuts the name at its last dot and appends `.ext`; a name
      without a dot, or whose only dot is its first character, keeps all of
      itself. So names that differ only after their last dot get the same
      result. */
  lemma WithExtensionShape(name: string, ext: string)
    requires IsPlainComponent(name) && ext != []
    ensures LastDot(name).Some? && LastDot(name).value > 0 ==>
      WithExtension(name, ext) == name[..LastDot(name).value] + "." + ext
    ensures LastDot(name).None? || LastDot(name).value == 0 ==>
      WithExtension(name, ext) == name + "." + ext
    ensures '.' !in name ==> WithExtension(name, ext) == name + "." + ext
  {
    var r := LastDot(name);
    if r.Some? && r.value > 0 {
      assert WithExtension(name, ext) == name[..r.value] + "." + ext;
    }
  }

  /** A name made of a stem, a dot and a dotless extension has its last dot
      right after the stem. */
  lemma LastDotAfter(stem: string, extension: string)
    requires '.' !in extension
    ensures LastDot(stem + "." + extension) == Some(|stem|)
  {
    var s := stem + "." + extension;
    var r := LastDot(s);
    assert s[|stem|] == '.';
  }

  /** Two names with their dots at the same places have the same last dot. */
  lemma LastDotOfSameDots(a: string, b: string)
    requires |a| == |b|
    requires forall i :: 0 <= i < |a| ==> (a[i] == '.' <==> b[i] == '.')
    ensures LastDot(a) == LastDot(b)
  {
    var ra, rb := LastDot(a), LastDot(b);
    assert ra.Some? <==> rb.Some?;
  }

  /** `File::create`: truncates an existing file or makes an empty one; fails
      when the directory does not exist. */
  function Create(fs: Fs, p: Path): Option<Fs>
  {
    if p.dir in fs.dirs then Some(fs.(files := fs.files[p := ""])) else None
  }

  /** `File::open` followed by reading the whole file: fails when no file exists. */
  function Open(fs: Fs, p: Path): Option<string>
  {
    if p in fs.files then Some(fs.files[p]) else None
  }

  /** A file handle as the model sees it: where it is and what it held when opened. */
  datatype OpenedFile = OpenedFile(path: Path, content: string)

  /** `if create { File::create(path) } else { File::open(path) }`: the shared
      step of both `get_or_create_input_snapshot_file` functions. Creating
      truncates the file to nothing; opening leaves the file system as it was. */
  function CreateOrOpen(fs: Fs, p: Path, create: bool): (r: Option<(Fs, OpenedFile)>)
    ensures r.Some? ==> r.value.1.path == p
    ensures create ==> (r.Some? <==> p.dir in fs.dirs)
    ensures create && r.Some? ==>
      r.value.0 == fs.(files := fs.files[p := ""]) && r.value.1.content == []
    ensures !create ==> (r.Some? <==> p in fs.files)
    ensures !create && r.Some? ==> r.value.0 == fs && r.value.1.content == fs.files[p]
  {
    if create then
      match Create(fs, p)
      case Some(fs') => Some((fs', OpenedFile(p, [])))
      case None => None
    else
      match Open(fs, p)
      case Some(text) => Some((fs, OpenedFile(p, text)))
      case None => None
  }

  /** Creating a file and then opening it succeeds and reads back nothing. */
  lemma CreateThenOpen(fs: Fs, p: Path)
    requires p.dir in fs.dirs
    ensures CreateOrOpen(fs, p, true).Some?
    ensures var fs' := CreateOrOpen(fs, p, true).value.0;
      CreateOrOpen(fs', p, false) == Some((fs', OpenedFile(p, [])))
  {
  }
}
