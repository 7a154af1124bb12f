/** Extraction of a native archive: which entries are written, and where.
    Decompression is outside the model; the archive reader is an oracle that
    either fails to open the archive or yields, index by index, each entry
    (with what reading its contents gives) or the error reading its header. */
module Archive {
  import opened Wrappers
  import opened Paths

  /** An entry as the reader presents it: whether its name starts at a root
      or drive prefix, the name's components after that, whether the entry
      is a directory, the bytes that copying its contents yields, and the
      decompression or checksum error that stops the copy, if any. With no
      error `data` is the whole contents; with one it is the part copied
      before the error, which `File::create` has already made a file of. */
  datatype ZipEntry = ZipEntry(rooted: bool, name: Path, isDir: bool, data: Bytes, dataError: Option<string>)

  type Unzip = Bytes -> Result<seq<Result<ZipEntry, string>>, string>

  /** The depth `enclosed_name` tracks while walking the components from
      depth `d`: `..` goes up and fails below zero, `.` stays, anything else
      goes down. */
  function DepthFrom(name: Path, d: nat): Option<nat>
    decreases |name|
  {
    if |name| == 0 then Some(d)
    else if name[0] == ".." then (if d == 0 then None else DepthFrom(name[1..], d - 1))
    else if name[0] == "." then DepthFrom(name[1..], d)
    else DepthFrom(name[1..], d + 1)
  }

  predicate HasNul(name: Path)
  {
    exists i :: 0 <= i < |name| && '\0' in name[i]
  }

  /** `ZipFile::enclosed_name`: the name unchanged when it is relative, has
      no NUL character and never climbs above its starting directory;
      nothing otherwise. */
  function EnclosedName(e: ZipEntry): (r: Option<Path>)
    ensures r.Some? <==> !e.rooted && !HasNul(e.name) && DepthFrom(e.name, 0).Some?
    ensures r.Some? ==> r.value == e.name
  {
    if e.rooted || HasNul(e.name) || DepthFrom(e.name, 0).None? then None else Some(e.name)
  }

  /** Where a name lands below the resolved directory `stack`, with `..`
      removing the last component and `.` doing nothing. */
  function Resolve(stack: Path, rest: Path): Path
    decreases |rest|
  {
    if |rest| == 0 then stack
    else if rest[0] == ".." then Resolve(if |stack| > 0 then stack[..|stack| - 1] else stack, rest[1..])
    else if rest[0] == "." then Resolve(stack, rest[1..])
    else Resolve(stack + [rest[0]], rest[1..])
  }

  lemma {:induction false} ResolveStaysBelow(base: Path, stack: Path, name: Path, d: nat)
    requires base <= stack && |base| + d <= |stack|
    requires DepthFrom(name, d).Some?
    ensures base <= Resolve(stack, name)
    decreases |name|
  {
    if |name| > 0 {
      if name[0] == ".." {
        ResolveStaysBelow(base, stack[..|stack| - 1], name[1..], d - 1);
      } else if name[0] == "." {
        ResolveStaysBelow(base, stack, name[1..], d);
      } else {
        ResolveStaysBelow(base, stack + [name[0]], name[1..], d + 1);
      }
    }
  }

  /** The safety `enclosed_name` buys: an accepted name, joined onto the
      output directory, resolves to a place inside it. */
  lemma EnclosedStaysInside(e: ZipEntry, out: Path)
    requires EnclosedName(e).Some?
    ensures Under(Resolve(out, e.name), out)
  {
    ResolveStaysBelow(out, out, e.name, 0);
  }

  /** A name that climbs out is refused, and would have resolved outside
      the output directory. */
  lemma ClimbingNameRefused(out: Path, file: string)
    requires |out| > 0 && file != ".." && file != "." && file != out[|out| - 1]
    ensures EnclosedName(ZipEntry(false, ["..", file], false, [], None)).None?
    ensures !Under(Resolve(out, ["..", file]), out)
  {
    var r := Resolve(out, ["..", file]);
    assert ["..", file][1..] == [file];
    assert [file][1..] == [];
    assert Resolve(out[..|out| - 1], [file]) == Resolve(out[..|out| - 1] + [file], []);
    assert r == out[..|out| - 1] + [file];
    assert |r| == |out| && r[|out| - 1] != out[|out| - 1];
  }

  /** A name made of plain components resolves to the plain join. */
  lemma {:induction false} ResolvePlain(stack: Path, rest: Path)
    requires forall i :: 0 <= i < |rest| ==> rest[i] != ".." && rest[i] != "."
    ensures Resolve(stack, rest) == stack + rest
    decreases |rest|
  {
    if |rest| > 0 {
      ResolvePlain(stack + [rest[0]], rest[1..]);
      assert stack + [rest[0]] + rest[1..] == stack + rest;
    }
  }

  /** The exclusion test: the entry's own path, or its immediate parent, is
      in the list. Grandparents are not looked at. */
  predicate Skipped(name: Path, exclude: seq<Path>)
  {
    name in exclude || (|name| > 0 && Parent(name) in exclude)
  }

  /** How the entry loop decides that an entry is a directory. */
  datatype DirTest =
      /** The entry's own directory flag. */
    | EntryFlag
      /** `file_path.is_dir()` on the entry's relative name: a question about
          the process's working directory, which `isDir` answers, and not
          about the archive. */
    | WorkingDir(isDir: Path -> bool)

  predicate TakenAsDir(e: ZipEntry, dirs: DirTest)
  {
    match dirs
    case EntryFlag => e.isDir
    case WorkingDir(isDir) => isDir(e.name)
  }

  /** The error of `File::create` on a directory entry's name, which ends in
      a separator and so cannot name a file. */
  const IsADirectory: string := "Is a directory (os error 21)"

  /** The entry is looked at: its name is enclosed and not excluded. */
  predicate Handled(e: ZipEntry, exclude: seq<Path>)
  {
    EnclosedName(e).Some? && !Skipped(e.name, exclude)
  }

  /** The entry is written to disk as a file. */
  predicate Writes(e: ZipEntry, exclude: seq<Path>, dirs: DirTest)
  {
    Handled(e, exclude) && !TakenAsDir(e, dirs) && !e.isDir
  }

  /** The entry at this index is read and written to `p`. */
  predicate WritesAt(x: Result<ZipEntry, string>, exclude: seq<Path>, dirs: DirTest, out: Path, p: Path)
  {
    x.Ok? && Writes(x.value, exclude, dirs) && Resolve(out, x.value.name) == p
  }

  /** The reader's error at this index: the header's, which `by_index`
      reports for any entry, or the contents', which only an entry written
      as a file ever reads. */
  function ReadError(x: Result<ZipEntry, string>, exclude: seq<Path>, dirs: DirTest): Option<string>
  {
    match x
    case Err(msg) => Some(msg)
    case Ok(e) => if Writes(e, exclude, dirs) then e.dataError else None
  }

  /** Why the entry at this index stops extraction, if it does: the reader's
      error, or a directory entry not taken as a directory, which is then
      created as a file. */
  function EntryError(x: Result<ZipEntry, string>, exclude: seq<Path>, dirs: DirTest): Option<string>
  {
    if x.Ok? && Handled(x.value, exclude) && !TakenAsDir(x.value, dirs) && x.value.isDir then Some(IsADirectory)
    else ReadError(x, exclude, dirs)
  }

  /** No later entry writes where entry `i` writes. */
  predicate LastWriter(entries: seq<Result<ZipEntry, string>>, i: nat, exclude: seq<Path>, dirs: DirTest, out: Path)
    requires i < |entries| && entries[i].Ok?
  {
    forall k :: i < k < |entries| ==> !WritesAt(entries[k], exclude, dirs, out, Resolve(out, entries[i].value.name))
  }

  /** Every file that differs between `a` and `b` holds the contents of an
      entry that writes there. */
  predicate ChangedOnlyByWriters(entries: seq<Result<ZipEntry, string>>, exclude: seq<Path>, dirs: DirTest, out: Path,
                                 a: map<Path, Bytes>, b: map<Path, Bytes>)
  {
    forall p :: p in b && (p !in a || b[p] != a[p]) ==>
      exists i :: 0 <= i < |entries| && WritesAt(entries[i], exclude, dirs, out, p) && b[p] == entries[i].value.data
  }

  /** Every entry that writes has its file in `b`, and where it is the last
      to write there, with its contents. */
  predicate WritersStored(entries: seq<Result<ZipEntry, string>>, exclude: seq<Path>, dirs: DirTest, out: Path, b: map<Path, Bytes>)
  {
    forall i :: 0 <= i < |entries| && entries[i].Ok? && Writes(entries[i].value, exclude, dirs) ==>
      && Resolve(out, entries[i].value.name) in b
      && (LastWriter(entries, i, exclude, dirs, out) ==> b[Resolve(out, entries[i].value.name)] == entries[i].value.data)
  }

  predicate NoFailure(entries: seq<Result<ZipEntry, string>>, exclude: seq<Path>, dirs: DirTest)
  {
    forall i :: 0 <= i < |entries| ==> EntryError(entries[i], exclude, dirs).None?
  }

  /** `msg` is the error of the first failing entry. */
  predicate FirstFailure(entries: seq<Result<ZipEntry, string>>, exclude: seq<Path>, dirs: DirTest, msg: string)
  {
    exists i :: 0 <= i < |entries| && EntryError(entries[i], exclude, dirs) == Some(msg) && NoFailure(entries[..i], exclude, dirs)
  }

  /** The files after one entry: written at its place when it writes. */
  function StepFiles(e: ZipEntry, out: Path, exclude: seq<Path>, dirs: DirTest, fs: map<Path, Bytes>): (r: map<Path, Bytes>)
    ensures fs.Keys <= r.Keys
    ensures KeptOutside(fs, r, out)
    ensures Writes(e, exclude, dirs) ==> r == fs[Resolve(out, e.name) := e.data]
    ensures !Writes(e, exclude, dirs) ==> r == fs
  {
    if Writes(e, exclude, dirs) then EnclosedStaysInside(e, out); fs[Resolve(out, e.name) := e.data] else fs
  }

  /** The files after the entry at one index: a header error writes
      nothing; otherwise as `StepFiles`, so a contents error leaves the
      part copied before it. */
  function EntryFiles(x: Result<ZipEntry, string>, out: Path, exclude: seq<Path>, dirs: DirTest, fs: map<Path, Bytes>): (r: map<Path, Bytes>)
    ensures fs.Keys <= r.Keys
    ensures KeptOutside(fs, r, out)
    ensures x.Ok? && Writes(x.value, exclude, dirs) ==> r == fs[Resolve(out, x.value.name) := x.value.data]
    ensures x.Err? || !Writes(x.value, exclude, dirs) ==> r == fs
  {
    if x.Ok? then StepFiles(x.value, out, exclude, dirs, fs) else fs
  }

  /** The entry loop: entries in index order; the first entry that fails
      stops extraction with what was written so far kept, the failing
      entry's partly copied file included; an entry that is not enclosed or
      is excluded is passed over unread; an entry taken as a directory
      writes no file; a file entry is written where its name resolves below
      `out`, replacing what was there. */
  function ExtractEntries(entries: seq<Result<ZipEntry, string>>, out: Path, exclude: seq<Path>, dirs: DirTest, fs: map<Path, Bytes>)
    : (r: (Result<(), string>, map<Path, Bytes>))
    ensures fs.Keys <= r.1.Keys
    ensures KeptOutside(fs, r.1, out)
    ensures ChangedOnlyByWriters(entries, exclude, dirs, out, fs, r.1)
    ensures r.0.Ok? <==> NoFailure(entries, exclude, dirs)
    ensures r.0.Err? ==> FirstFailure(entries, exclude, dirs, r.0.error)
    ensures r.0.Ok? ==> WritersStored(entries, exclude, dirs, out, r.1)
    decreases |entries|
  {
    if |entries| == 0 then (Ok(()), fs)
    else if EntryError(entries[0], exclude, dirs).Some? then
      FailureAtHead(entries, exclude, dirs);
      var fs' := EntryFiles(entries[0], out, exclude, dirs, fs);
      ChangedStep(entries, out, exclude, dirs, fs, fs', fs');
      (Err(EntryError(entries[0], exclude, dirs).value), fs')
    else
      var fs' := EntryFiles(entries[0], out, exclude, dirs, fs);
      var r := ExtractEntries(entries[1..], out, exclude, dirs, fs');
      ChangedStep(entries, out, exclude, dirs, fs, fs', r.1);
      FailureStep(entries, exclude, dirs, r.0);
      if r.0.Ok? then StoredStep(entries, out, exclude, dirs, fs, fs', r.1); r else r
  }

  lemma FailureAtHead(entries: seq<Result<ZipEntry, string>>, exclude: seq<Path>, dirs: DirTest)
    requires |entries| > 0 && EntryError(entries[0], exclude, dirs).Some?
    ensures !NoFailure(entries, exclude, dirs)
    ensures FirstFailure(entries, exclude, dirs, EntryError(entries[0], exclude, dirs).value)
  {
    assert NoFailure(entries[..0], exclude, dirs);
  }

  lemma FailureStep(entries: seq<Result<ZipEntry, string>>, exclude: seq<Path>, dirs: DirTest, r: Result<(), string>)
    requires |entries| > 0 && EntryError(entries[0], exclude, dirs).None?
    requires r.Ok? <==> NoFailure(entries[1..], exclude, dirs)
    requires r.Err? ==> FirstFailure(entries[1..], exclude, dirs, r.error)
    ensures r.Ok? <==> NoFailure(entries, exclude, dirs)
    ensures r.Err? ==> FirstFailure(entries, exclude, dirs, r.error)
  {
    assert forall i :: 0 <= i < |entries[1..]| ==> entries[1..][i] == entries[i + 1];
    if r.Err? {
      var i :| 0 <= i < |entries[1..]| && EntryError(entries[1..][i], exclude, dirs) == Some(r.error)
        && NoFailure(entries[1..][..i], exclude, dirs);
      assert entries[..i + 1] == [entries[0]] + entries[1..][..i];
      assert NoFailure(entries[..i + 1], exclude, dirs);
    }
  }

  lemma ChangedStep(entries: seq<Result<ZipEntry, string>>, out: Path, exclude: seq<Path>, dirs: DirTest,
                    fs: map<Path, Bytes>, fs': map<Path, Bytes>, b: map<Path, Bytes>)
    requires |entries| > 0
    requires fs' == EntryFiles(entries[0], out, exclude, dirs, fs)
    requires fs'.Keys <= b.Keys
    requires ChangedOnlyByWriters(entries[1..], exclude, dirs, out, fs', b)
    ensures ChangedOnlyByWriters(entries, exclude, dirs, out, fs, b)
  {
    forall p | p in b && (p !in fs || b[p] != fs[p])
      ensures exists i :: 0 <= i < |entries| && WritesAt(entries[i], exclude, dirs, out, p) && b[p] == entries[i].value.data
    {
      if p in fs' && b[p] == fs'[p] {
        assert WritesAt(entries[0], exclude, dirs, out, p);
      } else {
        var i :| 0 <= i < |entries[1..]| && WritesAt(entries[1..][i], exclude, dirs, out, p) && b[p] == entries[1..][i].value.data;
        assert entries[1..][i] == entries[i + 1];
      }
    }
  }

  lemma StoredStep(entries: seq<Result<ZipEntry, string>>, out: Path, exclude: seq<Path>, dirs: DirTest,
                   fs: map<Path, Bytes>, fs': map<Path, Bytes>, b: map<Path, Bytes>)
    requires |entries| > 0 && entries[0].Ok?
    requires fs' == EntryFiles(entries[0], out, exclude, dirs, fs)
    requires fs'.Keys <= b.Keys
    requires ChangedOnlyByWriters(entries[1..], exclude, dirs, out, fs', b)
    requires WritersStored(entries[1..], exclude, dirs, out, b)
    ensures WritersStored(entries, exclude, dirs, out, b)
  {
    forall i | 0 <= i < |entries| && entries[i].Ok? && Writes(entries[i].value, exclude, dirs)
      ensures Resolve(out, entries[i].value.name) in b
      ensures LastWriter(entries, i, exclude, dirs, out) ==> b[Resolve(out, entries[i].value.name)] == entries[i].value.data
    {
      if i > 0 {
        assert entries[i] == entries[1..][i - 1];
        if LastWriter(entries, i, exclude, dirs, out) {
          assert LastWriter(entries[1..], i - 1, exclude, dirs, out) by {
            forall k | i - 1 < k < |entries[1..]|
              ensures !WritesAt(entries[1..][k], exclude, dirs, out, Resolve(out, entries[i].value.name))
            {
              assert entries[1..][k] == entries[k + 1];
            }
          }
        }
      }
    }
  }

  /** `utils::extract(jar, output, exclude)`: no exclude list means an empty
      one; an archive that cannot be opened writes nothing; otherwise the
      entry loop runs on what the reader yields. */
  function Extract(jar: Bytes, out: Path, exclude: Option<seq<Path>>, dirs: DirTest, fs: map<Path, Bytes>, unzip: Unzip)
    : (r: (Result<(), string>, map<Path, Bytes>))
    ensures fs.Keys <= r.1.Keys
    ensures KeptOutside(fs, r.1, out)
    ensures unzip(jar).Err? ==> r == (Err(unzip(jar).error), fs)
    ensures unzip(jar).Ok? ==> (r.0.Ok? <==> NoFailure(unzip(jar).value, exclude.GetOr([]), dirs))
    ensures unzip(jar).Ok? && r.0.Err? ==> FirstFailure(unzip(jar).value, exclude.GetOr([]), dirs, r.0.error)
    ensures unzip(jar).Ok? ==> ChangedOnlyByWriters(unzip(jar).value, exclude.GetOr([]), dirs, out, fs, r.1)
    ensures unzip(jar).Ok? && r.0.Ok? ==> WritersStored(unzip(jar).value, exclude.GetOr([]), dirs, out, r.1)
  {
    match unzip(jar)
    case Err(msg) => (Err(msg), fs)
    case Ok(entries) => ExtractEntries(entries, out, exclude.GetOr([]), dirs, fs)
  }

  /** No exclude list behaves exactly as an empty one. */
  lemma NoExcludeIsEmpty(jar: Bytes, out: Path, dirs: DirTest, fs: map<Path, Bytes>, unzip: Unzip)
    ensures Extract(jar, out, None, dirs, fs, unzip) == Extract(jar, out, Some([]), dirs, fs, unzip)
  {
  }

  /** The first failing entry decides: extraction returns its error, and
      the files are those the entries before it wrote, plus what the
      failing entry itself left (the part of its contents copied before a
      contents error); no later entry is looked at. */
  lemma {:induction false} ExtractStopsAtFirstError(entries: seq<Result<ZipEntry, string>>, out: Path, exclude: seq<Path>, dirs: DirTest,
                                                    fs: map<Path, Bytes>, k: nat)
    requires k < |entries| && EntryError(entries[k], exclude, dirs).Some?
    requires forall j :: 0 <= j < k ==> EntryError(entries[j], exclude, dirs).None?
    ensures ExtractEntries(entries, out, exclude, dirs, fs)
         == (Err(EntryError(entries[k], exclude, dirs).value),
             EntryFiles(entries[k], out, exclude, dirs, ExtractEntries(entries[..k], out, exclude, dirs, fs).1))
    decreases k
  {
    if k > 0 {
      var fs' := EntryFiles(entries[0], out, exclude, dirs, fs);
      assert entries[1..][k - 1] == entries[k];
      ExtractStopsAtFirstError(entries[1..], out, exclude, dirs, fs', k - 1);
      assert entries[..k][0] == entries[0] && entries[..k][1..] == entries[1..][..k - 1];
    }
  }

  /** An entry whose path or parent is excluded is never written: when no
      other entry writes where it would land, that place keeps its old
      contents (or stays absent). */
  lemma ExcludedEntryNotWritten(entries: seq<Result<ZipEntry, string>>, out: Path, exclude: seq<Path>, dirs: DirTest,
                                fs: map<Path, Bytes>, k: nat)
    requires k < |entries| && entries[k].Ok? && Skipped(entries[k].value.name, exclude)
    requires forall i :: 0 <= i < |entries| && i != k ==> !WritesAt(entries[i], exclude, dirs, out, Resolve(out, entries[k].value.name))
    ensures var p := Resolve(out, entries[k].value.name);
      var r := ExtractEntries(entries, out, exclude, dirs, fs).1;
      (p in r <==> p in fs) && (p in fs ==> r[p] == fs[p])
  {
  }

  /** With the entry's own flag as the directory test, the only failures
      are the reader's: no entry is ever created as the wrong kind. */
  lemma EntryFlagFailsOnlyOnReadErrors(entries: seq<Result<ZipEntry, string>>, out: Path, exclude: seq<Path>, fs: map<Path, Bytes>)
    ensures var r := ExtractEntries(entries, out, exclude, EntryFlag, fs);
      && (r.0.Ok? <==> forall i :: 0 <= i < |entries| ==> ReadError(entries[i], exclude, EntryFlag).None?)
      && (r.0.Err? ==> exists i ::
            && 0 <= i < |entries|
            && ReadError(entries[i], exclude, EntryFlag) == Some(r.0.error)
            && forall j :: 0 <= j < i ==> ReadError(entries[j], exclude, EntryFlag).None?)
  {
    var r := ExtractEntries(entries, out, exclude, EntryFlag, fs);
    assert forall i :: 0 <= i < |entries| ==> EntryError(entries[i], exclude, EntryFlag) == ReadError(entries[i], exclude, EntryFlag);
    if r.0.Err? {
      var i :| 0 <= i < |entries| && EntryError(entries[i], exclude, EntryFlag) == Some(r.0.error)
        && NoFailure(entries[..i], exclude, EntryFlag);
      assert forall j :: 0 <= j < i ==> entries[..i][j] == entries[j];
    }
  }

  /** A contents error is met only by an entry written as a file: the file
      has already been created, so it stays with the part copied before the
      error; the same entry, excluded, is never read and extraction
      succeeds. */
  lemma ContentsErrorLeavesPartialFile(out: Path, fs: map<Path, Bytes>, part: Bytes, msg: string)
    ensures ExtractEntries([Ok(ZipEntry(false, ["lib.so"], false, part, Some(msg)))], out, [], EntryFlag, fs)
         == (Err(msg), fs[out + ["lib.so"] := part])
    ensures ExtractEntries([Ok(ZipEntry(false, ["lib.so"], false, part, Some(msg)))], out, [["lib.so"]], EntryFlag, fs)
         == (Ok(()), fs)
  {
    var n: Path := ["lib.so"];
    assert !HasNul(n) by {
      assert '\0' !in n[0];
    }
    assert DepthFrom(n, 0).Some? by {
      assert n[1..] == [];
    }
    ResolvePlain(out, n);
  }

  /** As written, a directory entry is a directory only if the working
      directory happens to hold one of that name: an archive with a `linux/`
      entry fails with the file-creation error, where the entry's own flag
      passes it over. */
  lemma DirectoryEntryFailsAsWritten(out: Path, fs: map<Path, Bytes>, cwdIsDir: Path -> bool)
    requires !cwdIsDir(["linux"])
    ensures ExtractEntries([Ok(ZipEntry(false, ["linux"], true, [], None))], out, [], WorkingDir(cwdIsDir), fs) == (Err(IsADirectory), fs)
    ensures ExtractEntries([Ok(ZipEntry(false, ["linux"], true, [], None))], out, [], EntryFlag, fs) == (Ok(()), fs)
  {
    var n: Path := ["linux"];
    assert !HasNul(n) by {
      assert '\0' !in n[0];
    }
    assert DepthFrom(n, 0).Some? by {
      assert n[1..] == [];
    }
    assert Handled(ZipEntry(false, n, true, [], None), []);
  }

  /** As written, a file entry whose name is a directory of the working
      directory is taken as a directory, and its contents are dropped. */
  lemma WorkingDirShadowsFile(out: Path, fs: map<Path, Bytes>, cwdIsDir: Path -> bool, data: Bytes)
    requires cwdIsDir(["lib.so"])
    ensures ExtractEntries([Ok(ZipEntry(false, ["lib.so"], false, data, None))], out, [], WorkingDir(cwdIsDir), fs) == (Ok(()), fs)
    ensures ExtractEntries([Ok(ZipEntry(false, ["lib.so"], false, data, None))], out, [], EntryFlag, fs) == (Ok(()), fs[out + ["lib.so"] := data])
  {
    var n: Path := ["lib.so"];
    assert !HasNul(n) by {
      assert '\0' !in n[0];
    }
    assert DepthFrom(n, 0).Some? by {
      assert n[1..] == [];
    }
    ResolvePlain(out, n);
  }

  /** Only the immediate parent is compared: with `a` excluded, the entry
      `a/b/c.so` is still written. */
  lemma GrandparentNotExcluded(out: Path, fs: map<Path, Bytes>, data: Bytes)
    ensures ExtractEntries([Ok(ZipEntry(false, ["a", "b", "c.so"], false, data, None))], out, [["a"]], EntryFlag, fs)
         == (Ok(()), fs[out + ["a", "b", "c.so"] := data])
  {
    var n: Path := ["a", "b", "c.so"];
    assert Parent(n) == ["a", "b"];
    assert n != ["a"];
    assert !HasNul(n) by {
      assert '\0' !in n[0] && '\0' !in n[1] && '\0' !in n[2];
    }
    ResolvePlain(out, n);
  }
}
