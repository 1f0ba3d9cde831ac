/** merge_gopro_clips.py: grouping the camera's split recordings by clip number
    and planning one merged output per clip. Video decoding, encoding and the
    file system are outside the model; an enumerated file is a directory plus
    the file's name. */
module MergeGoproClips {
  import opened Cli

  const NoFilesMessage := "Directory does not appear to contain any GoPro files."
  const MergedSuffix := "_merged.mp4"

  /** A file found by the directory scan: its parent directory and its name
      (the last component of the path). */
  datatype ClipFile = ClipFile(dir: string, name: string)

  /** One entry of a group: the subclip number text and the file. */
  datatype Subclip = Subclip(subclip: string, path: ClipFile)

  /** The insertion-ordered dictionary from clip number to its subclips: keys
      in order of first appearance, and the list stored under each key. */
  datatype ClipIndex = ClipIndex(keys: seq<string>, groups: map<string, seq<Subclip>>)

  /** Python's s[lo:hi] for 0 <= lo <= hi: both bounds are clamped to the length. */
  function Slice(s: string, lo: nat, hi: nat): (r: string)
    requires lo <= hi
    ensures |r| == (if hi <= |s| then hi - lo else if lo <= |s| then |s| - lo else 0)
    ensures forall i :: 0 <= i < |r| ==> r[i] == s[lo + i]
  {
    var l := if lo <= |s| then lo else |s|;
    var h := if hi <= |s| then hi else |s|;
    s[l..h]
  }

  /** fname[5:8]: the clip number, "533" for GX010533.mp4. */
  function ClipKey(f: ClipFile): (r: string)
    ensures |r| == if |f.name| >= 8 then 3 else if |f.name| >= 5 then |f.name| - 5 else 0
    ensures forall i :: 0 <= i < |r| ==> 5 + i < |f.name| && r[i] == f.name[5 + i]
  {
    Slice(f.name, 5, 8)
  }

  /** fname[2:4]: the subclip number, "01" for GX010533.mp4. */
  function SubclipOf(f: ClipFile): (r: string)
    ensures |r| == if |f.name| >= 4 then 2 else if |f.name| >= 2 then |f.name| - 2 else 0
    ensures forall i :: 0 <= i < |r| ==> 2 + i < |f.name| && r[i] == f.name[2 + i]
  {
    Slice(f.name, 2, 4)
  }

  function Entry(f: ClipFile): Subclip
  {
    Subclip(SubclipOf(f), f)
  }

  lemma ExampleFields()
    ensures ClipKey(ClipFile("clips", "GX010533.mp4")) == "533"
    ensures SubclipOf(ClipFile("clips", "GX010533.mp4")) == "01"
  {
  }

  /** Only three digits of the four-digit recording number are kept, so
      recordings 0533 and 1533 share clip number "533" and are merged together. */
  lemma RecordingsSharingLastThreeDigitsCollide()
    ensures ClipKey(ClipFile("d", "GX010533.mp4")) == ClipKey(ClipFile("d", "GX011533.mp4")) == "533"
  {
  }

  predicate Distinct(keys: seq<string>)
  {
    forall i, j :: 0 <= i < j < |keys| ==> keys[i] != keys[j]
  }

  /** The clip numbers of the files, each once, in order of first appearance. */
  function FirstSeenKeys(files: seq<ClipFile>): (r: seq<string>)
    ensures Distinct(r) && |r| <= |files|
  {
    if files == [] then []
    else
      var keys := FirstSeenKeys(files[..|files| - 1]);
      var k := ClipKey(files[|files| - 1]);
      if k in keys then keys else keys + [k]
  }

  /** The entries of the files whose clip number is k, in enumeration order. */
  function MembersWithKey(files: seq<ClipFile>, k: string): (r: seq<Subclip>)
    ensures |r| <= |files|
    ensures forall i :: 0 <= i < |r| ==> r[i].path in files && ClipKey(r[i].path) == k && r[i] == Entry(r[i].path)
  {
    if files == [] then []
    else
      var members := MembersWithKey(files[..|files| - 1], k);
      var f := files[|files| - 1];
      if ClipKey(f) == k then members + [Entry(f)] else members
  }

  /** Each enumerated file contributes at most one entry to a clip's list. */
  lemma {:induction false} AtMostOneEntryPerFile(files: seq<ClipFile>, k: string)
    ensures multiset(Paths(MembersWithKey(files, k))) <= multiset(files)
  {
    if files != [] {
      var init := files[..|files| - 1];
      var f := files[|files| - 1];
      AtMostOneEntryPerFile(init, k);
      assert files == init + [f];
      var members := MembersWithKey(init, k);
      if ClipKey(f) == k {
        assert Paths(members + [Entry(f)]) == Paths(members) + [f];
      }
    }
  }

  /** A clip number is a key exactly when some file carries it, and then its
      list is not empty: a new key starts with one element, and the
      `len(subclips) == 0` skip in main never fires. */
  lemma {:induction false} KeysAreNonEmptyGroups(files: seq<ClipFile>, k: string)
    ensures k in FirstSeenKeys(files) <==> MembersWithKey(files, k) != []
    ensures k in FirstSeenKeys(files) <==> exists i :: 0 <= i < |files| && ClipKey(files[i]) == k
  {
    if files != [] {
      var init := files[..|files| - 1];
      KeysAreNonEmptyGroups(init, k);
      if ClipKey(files[|files| - 1]) != k && k !in FirstSeenKeys(files) {
        forall i | 0 <= i < |files| ensures ClipKey(files[i]) != k {
          if i < |files| - 1 {
            assert files[i] == init[i];
          }
        }
      }
      if k in FirstSeenKeys(init) {
        var i :| 0 <= i < |init| && ClipKey(init[i]) == k;
        assert files[i] == init[i];
      }
    }
  }

  /** Keys appear in order of first encounter: whenever keys[i] comes before
      keys[j], every file carrying keys[j] is preceded by a file carrying keys[i]. */
  lemma {:induction false} KeysInFirstSeenOrder(files: seq<ClipFile>, i: nat, j: nat, q: nat)
    requires i < j < |FirstSeenKeys(files)|
    requires q < |files| && ClipKey(files[q]) == FirstSeenKeys(files)[j]
    ensures exists p :: 0 <= p < q && ClipKey(files[p]) == FirstSeenKeys(files)[i]
  {
    var n := |files|;
    var init := files[..n - 1];
    var keys, initKeys := FirstSeenKeys(files), FirstSeenKeys(init);
    var k := ClipKey(files[n - 1]);
    if j < |initKeys| {
      assert keys[i] == initKeys[i] && keys[j] == initKeys[j];
      var q' := q;
      if q == n - 1 {
        KeysAreNonEmptyGroups(init, keys[j]);
        q' :| 0 <= q' < |init| && ClipKey(init[q']) == keys[j];
      }
      assert init[q'] == files[q'];
      KeysInFirstSeenOrder(init, i, j, q');
      var p :| 0 <= p < q' && ClipKey(init[p]) == initKeys[i];
      assert files[p] == init[p];
    } else {
      assert keys == initKeys + [k] && keys[j] == k && k !in initKeys;
      KeysAreNonEmptyGroups(init, keys[i]);
      var p :| 0 <= p < |init| && ClipKey(init[p]) == keys[i];
      assert files[p] == init[p];
      if q < n - 1 {
        assert init[q] == files[q];
        KeysAreNonEmptyGroups(init, k);
      }
    }
  }

  /** The dictionary the grouping loop builds: distinct keys, a list under each
      key, and none of those lists empty. */
  function Grouped(files: seq<ClipFile>): (r: ClipIndex)
    ensures Distinct(r.keys)
    ensures forall k :: k in r.groups <==> k in r.keys
    ensures forall k :: k in r.groups ==> r.groups[k] != []
  {
    var keys := FirstSeenKeys(files);
    assert forall k | k in keys :: MembersWithKey(files, k) != [] by {
      forall k | k in keys ensures MembersWithKey(files, k) != [] {
        KeysAreNonEmptyGroups(files, k);
      }
    }
    ClipIndex(keys, map k | k in keys :: MembersWithKey(files, k))
  }

  /** get_subclips_from_dir, after the scan: an empty listing exits at once;
      otherwise each file is appended to the list under its clip number, and a
      clip number seen for the first time starts a one-element list. */
  method GetSubclipsFromDir(files: seq<ClipFile>) returns (r: Result<ClipIndex>)
    ensures files == [] ==> r == Err(SystemExit(1, NoFilesMessage))
    ensures files != [] ==> r == Ok(Grouped(files))
  {
    if |files| == 0 {
      return Err(SystemExit(1, NoFilesMessage));
    }
    var keys: seq<string> := [];
    var filesByClips: map<string, seq<Subclip>> := map[];
    for i := 0 to |files|
      invariant keys == FirstSeenKeys(files[..i])
      invariant forall k :: k in filesByClips <==> k in keys
      invariant forall k :: k in filesByClips ==> filesByClips[k] == MembersWithKey(files[..i], k)
    {
      assert files[..i + 1][..i] == files[..i] && files[..i + 1][i] == files[i];
      var clip := ClipKey(files[i]);
      var subclip := SubclipOf(files[i]);
      if clip in filesByClips {
        filesByClips := filesByClips[clip := filesByClips[clip] + [Subclip(subclip, files[i])]];
      } else {
        KeysAreNonEmptyGroups(files[..i], clip);
        filesByClips := filesByClips[clip := [Subclip(subclip, files[i])]];
        keys := keys + [clip];
      }
    }
    assert files[..|files|] == files;
    assert filesByClips == Grouped(files).groups;
    r := Ok(ClipIndex(keys, filesByClips));
  }

  /** Every entry of a group comes from an enumerated file carrying that clip
      number, and every enumerated file is an entry of its own clip's group: a
      file lands in exactly one group. */
  lemma {:induction false} FileInItsGroup(files: seq<ClipFile>, k: string)
    ensures forall m :: m in MembersWithKey(files, k) ==>
              m.path in files && ClipKey(m.path) == k && m == Entry(m.path)
    ensures forall i :: 0 <= i < |files| && ClipKey(files[i]) == k ==>
              Entry(files[i]) in MembersWithKey(files, k)
  {
    if files != [] {
      var init := files[..|files| - 1];
      FileInItsGroup(init, k);
      forall i | 0 <= i < |files| && ClipKey(files[i]) == k
        ensures Entry(files[i]) in MembersWithKey(files, k)
      {
        if i < |files| - 1 {
          assert files[i] == init[i];
        }
      }
      forall m | m in MembersWithKey(files, k) ensures m.path in files {
        if m in MembersWithKey(init, k) {
          assert m.path in init;
        }
      }
    }
  }

  /** Grouping a listing that is split in two: each group holds the first
      part's entries, then the second part's, so within a group entries keep
      enumeration order. */
  lemma {:induction false} MembersAppend(a: seq<ClipFile>, b: seq<ClipFile>, k: string)
    ensures MembersWithKey(a + b, k) == MembersWithKey(a, k) + MembersWithKey(b, k)
  {
    if b == [] {
      assert a + b == a;
    } else {
      var ab := a + b;
      assert ab[..|ab| - 1] == a + b[..|b| - 1];
      assert ab[|ab| - 1] == b[|b| - 1];
      MembersAppend(a, b[..|b| - 1], k);
    }
  }

  /** Total number of entries listed under the given keys. */
  function SizeSum(files: seq<ClipFile>, keys: seq<string>): nat
  {
    if keys == [] then 0
    else SizeSum(files, keys[..|keys| - 1]) + |MembersWithKey(files, keys[|keys| - 1])|
  }

  lemma {:induction false} SizeSumStep(files: seq<ClipFile>, f: ClipFile, keys: seq<string>)
    requires Distinct(keys)
    ensures SizeSum(files + [f], keys) == SizeSum(files, keys) + (if ClipKey(f) in keys then 1 else 0)
  {
    assert (files + [f])[..|files|] == files;
    if keys != [] {
      var init := keys[..|keys| - 1];
      SizeSumStep(files, f, init);
      assert keys == init + [keys[|keys| - 1]];
    }
  }

  /** The groups partition the listing: their sizes add up to the number of
      enumerated files. */
  lemma {:induction false} GroupSizesSum(files: seq<ClipFile>)
    ensures SizeSum(files, FirstSeenKeys(files)) == |files|
  {
    if files != [] {
      var init := files[..|files| - 1];
      var f := files[|files| - 1];
      var keys := FirstSeenKeys(init);
      assert files == init + [f];
      GroupSizesSum(init);
      SizeSumStep(init, f, keys);
      if ClipKey(f) !in keys {
        var k := ClipKey(f);
        assert (keys + [k])[..|keys|] == keys;
        KeysAreNonEmptyGroups(init, k);
      }
    }
  }

  /** The sorted(...) call in main discards its result: a later subclip that is
      enumerated first stays first. */
  lemma EnumerationOrderKept()
    ensures var later, earlier := ClipFile("d", "GX020533.mp4"), ClipFile("d", "GX010533.mp4");
            var index := Grouped([later, earlier]);
            index.keys == ["533"] && "533" in index.groups &&
            index.groups["533"] == [Subclip("02", later), Subclip("01", earlier)]
  {
    var later, earlier := ClipFile("d", "GX020533.mp4"), ClipFile("d", "GX010533.mp4");
    var files := [later, earlier];
    assert ClipKey(later) == "533" && ClipKey(earlier) == "533";
    assert SubclipOf(later) == "02" && SubclipOf(earlier) == "01";
    assert files[..1] == [later] && files[1] == earlier;
    assert [later][..0] == [];
    assert FirstSeenKeys([later]) == ["533"];
    assert MembersWithKey([later], "533") == [Subclip("02", later)];
  }

  /** One merge the script performs: the output directory and file name, and
      the input files in the order they are concatenated. */
  datatype MergeJob = MergeJob(outputDir: string, outputName: string, inputs: seq<ClipFile>)

  /** The output directory: --dest when given, otherwise the input directory. */
  function OutputDir(dir: string, dest: Option<string>): (r: string)
    ensures dest.Some? ==> r == dest.value
    ensures dest.None? ==> r == dir
  {
    match dest
    case Some(d) => d
    case None => dir
  }

  /** The merged file's name, "<clip>_merged.mp4". */
  function OutputName(clip: string): (r: string)
    ensures |r| == |clip| + |MergedSuffix|
    ensures r[..|clip|] == clip && r[|clip|..] == MergedSuffix
  {
    clip + MergedSuffix
  }

  /** Different clips never share an output file. */
  lemma OutputNameInjective(a: string, b: string)
    ensures OutputName(a) == OutputName(b) <==> a == b
  {
    if OutputName(a) == OutputName(b) {
      assert a == OutputName(a)[..|a|];
    }
  }

  /** [fp for (_, fp) in subclips]: the files of a group, in list order. */
  function Paths(members: seq<Subclip>): (r: seq<ClipFile>)
    ensures |r| == |members|
    ensures forall i :: 0 <= i < |r| ==> r[i] == members[i].path
  {
    if members == [] then [] else Paths(members[..|members| - 1]) + [members[|members| - 1].path]
  }

  /** The merges main performs for the given keys, in key order, skipping a key
      whose list is empty. */
  function MergeJobs(keys: seq<string>, groups: map<string, seq<Subclip>>, outDir: string): (r: seq<MergeJob>)
    requires forall k :: k in keys ==> k in groups
    ensures |r| <= |keys|
    ensures forall n :: 0 <= n < |r| ==> r[n].outputDir == outDir && r[n].inputs != []
  {
    if keys == [] then []
    else
      var jobs := MergeJobs(keys[..|keys| - 1], groups, outDir);
      var k := keys[|keys| - 1];
      if |groups[k]| == 0 then jobs else jobs + [MergeJob(outDir, OutputName(k), Paths(groups[k]))]
  }

  /** main's merge loop: for each clip in dictionary order, the group's files
      are concatenated into "<clip>_merged.mp4" in the output directory. */
  method PlanMerges(index: ClipIndex, outDir: string) returns (jobs: seq<MergeJob>)
    requires forall k :: k in index.keys ==> k in index.groups
    ensures jobs == MergeJobs(index.keys, index.groups, outDir)
  {
    jobs := [];
    for i := 0 to |index.keys|
      invariant jobs == MergeJobs(index.keys[..i], index.groups, outDir)
    {
      assert index.keys[..i + 1][..i] == index.keys[..i];
      var clip := index.keys[i];
      var subclips := index.groups[clip];
      if |subclips| == 0 {
        continue;
      }
      var inputs: seq<ClipFile> := [];
      for j := 0 to |subclips|
        invariant inputs == Paths(subclips[..j])
      {
        assert subclips[..j + 1][..j] == subclips[..j];
        inputs := inputs + [subclips[j].path];
      }
      assert subclips[..|subclips|] == subclips;
      jobs := jobs + [MergeJob(outDir, OutputName(clip), inputs)];
    }
    assert index.keys[..|index.keys|] == index.keys;
  }

  /** For a grouped listing no clip is skipped: there is one merge per clip,
      in order of first appearance, writing "<clip>_merged.mp4" from that
      clip's files in enumeration order. */
  lemma {:induction false} OneMergePerClip(files: seq<ClipFile>, groups: map<string, seq<Subclip>>,
                                           keys: seq<string>, outDir: string)
    requires forall k :: k in keys ==> k in FirstSeenKeys(files) && k in groups && groups[k] == MembersWithKey(files, k)
    ensures var jobs := MergeJobs(keys, groups, outDir);
            |jobs| == |keys| &&
            forall i :: 0 <= i < |keys| ==>
              jobs[i] == MergeJob(outDir, OutputName(keys[i]), Paths(MembersWithKey(files, keys[i])))
  {
    if keys != [] {
      var init := keys[..|keys| - 1];
      var k := keys[|keys| - 1];
      OneMergePerClip(files, groups, init, outDir);
      KeysAreNonEmptyGroups(files, k);
      var before := MergeJobs(init, groups, outDir);
      var job := MergeJob(outDir, OutputName(k), Paths(MembersWithKey(files, k)));
      assert MergeJobs(keys, groups, outDir) == before + [job];
      forall i | 0 <= i < |keys|
        ensures (before + [job])[i] == MergeJob(outDir, OutputName(keys[i]), Paths(MembersWithKey(files, keys[i])))
      {
        if i < |init| {
          assert keys[i] == init[i];
        }
      }
    }
  }

  /** main without the video work: group the listing, then merge each clip into
      the output directory chosen from --dest. */
  method MergeMain(dir: string, dest: Option<string>, files: seq<ClipFile>) returns (r: Result<seq<MergeJob>>)
    ensures files == [] ==> r == Err(SystemExit(1, NoFilesMessage))
    ensures files != [] ==> r.Ok? && |r.value| == |FirstSeenKeys(files)|
    ensures r.Ok? ==> forall i :: 0 <= i < |r.value| ==>
              var clip := FirstSeenKeys(files)[i];
              r.value[i] == MergeJob(OutputDir(dir, dest), OutputName(clip), Paths(MembersWithKey(files, clip)))
  {
    var grouped := GetSubclipsFromDir(files);
    if grouped.Err? {
      return Err(grouped.error);
    }
    var outDir := OutputDir(dir, dest);
    var jobs := PlanMerges(grouped.value, outDir);
    OneMergePerClip(files, grouped.value.groups, FirstSeenKeys(files), outDir);
    r := Ok(jobs);
  }
}
