/**
 * Candidate enumeration: the folder scan that each of the three search
 * functions runs before scoring (desk.py, `search_images_by_description`,
 * `search_images_by_image`, `search_images_combined`).
 */
module Enumeration {
  import opened Wrappers
  import opened Text

  /**
   * What the scan can observe of the file system: the folders that are
   * directories (`os.path.isdir`), each with what `os.listdir` gives for it: its
   * entry names in listing order, or `None` when listing raises (no read
   * permission, a privacy-protected folder, a folder removed after the test).
   * A folder outside the map is not a directory.
   */
  type FileSystem = map<string, Option<seq<string>>>

  /** The extension allow-list, tested on the lower-cased name. */
  predicate HasImageExtension(lowered: string)
  {
    EndsWith(lowered, ".png") || EndsWith(lowered, ".jpg") ||
    EndsWith(lowered, ".jpeg") || EndsWith(lowered, ".bmp")
  }

  /** `name.lower().endswith(('.png', '.jpg', '.jpeg', '.bmp'))` */
  predicate IsImageName(name: string)
  {
    HasImageExtension(Lower(name))
  }

  /** `os.path.join(folder, name)` with POSIX separators. */
  function Join(folder: string, name: string): (p: string)
    ensures EndsWith(p, name)
    ensures (name == [] || name[0] != '/') ==> folder <= p
  {
    if name != [] && name[0] == '/' then name
    else if folder == [] || folder[|folder| - 1] == '/' then folder + name
    else folder + "/" + name
  }

  /** The extension test only looks at the end of the lowered name. */
  lemma HasImageExtensionSuffix(s: string, t: string)
    requires EndsWith(s, t) && HasImageExtension(t)
    ensures HasImageExtension(s)
  {
    if EndsWith(t, ".png") {
      EndsWithTrans(s, t, ".png");
    } else if EndsWith(t, ".jpg") {
      EndsWithTrans(s, t, ".jpg");
    } else if EndsWith(t, ".jpeg") {
      EndsWithTrans(s, t, ".jpeg");
    } else {
      EndsWithTrans(s, t, ".bmp");
    }
  }

  /** Joining keeps a name's extension: the path lower-cases to something ending like the name does. */
  lemma JoinKeepsImageExtension(folder: string, name: string)
    requires IsImageName(name)
    ensures IsImageName(Join(folder, name))
  {
    var p := Join(folder, name);
    var prefix := p[..|p| - |name|];
    assert p == prefix + name;
    LowerAppend(prefix, name);
    assert EndsWith(Lower(p), Lower(name));
    HasImageExtensionSuffix(Lower(p), Lower(name));
  }

  /** The image entries of one directory listing, joined onto the folder, in listing order. */
  function ImageFiles(folder: string, names: seq<string>): seq<string>
  {
    if names == [] then []
    else
      var last := names[|names| - 1];
      ImageFiles(folder, names[..|names| - 1]) + (if IsImageName(last) then [Join(folder, last)] else [])
  }

  /** What one folder contributes: nothing when it is not a directory or cannot be listed. */
  function FolderCandidates(fs: FileSystem, folder: string): seq<string>
  {
    if folder in fs && fs[folder].Some? then ImageFiles(folder, fs[folder].value) else []
  }

  /**
   * The scan of all folders, in the order given, without removing duplicates,
   * passing over every folder that yields no listing.
   */
  function Candidates(fs: FileSystem, folders: seq<string>): seq<string>
  {
    if folders == [] then []
    else Candidates(fs, folders[..|folders| - 1]) + FolderCandidates(fs, folders[|folders| - 1])
  }

  /** Every given folder that is a directory can be listed. */
  predicate Listable(fs: FileSystem, folders: seq<string>)
  {
    forall i :: 0 <= i < |folders| && folders[i] in fs ==> fs[folders[i]].Some?
  }

  /**
   * The scan as desk.py:103-111 writes it: `os.listdir` sits outside any `try`, so
   * the first directory that cannot be listed aborts the scan (`None`).
   */
  function Scan(fs: FileSystem, folders: seq<string>): Option<seq<string>>
  {
    if folders == [] then Some([])
    else
      var last := folders[|folders| - 1];
      match Scan(fs, folders[..|folders| - 1])
      case None => None
      case Some(paths) =>
        if last !in fs then Some(paths)
        else if fs[last].None? then None
        else Some(paths + ImageFiles(last, fs[last].value))
  }

  /** The scan raises exactly when some given directory cannot be listed, and otherwise yields `Candidates`. */
  lemma {:induction false} ScanOutcome(fs: FileSystem, folders: seq<string>)
    ensures Scan(fs, folders) == if Listable(fs, folders) then Some(Candidates(fs, folders)) else None
  {
    if folders != [] {
      var init, last := folders[..|folders| - 1], folders[|folders| - 1];
      ScanOutcome(fs, init);
      if !Listable(fs, init) {
        var i :| 0 <= i < |init| && init[i] in fs && fs[init[i]].None?;
        assert folders[i] == init[i];
      } else if last in fs && fs[last].None? {
        assert !Listable(fs, folders);
      } else {
        forall i | 0 <= i < |folders| && folders[i] in fs
          ensures fs[folders[i]].Some?
        {
          if i < |init| {
            assert folders[i] == init[i];
          }
        }
        assert Candidates(fs, folders) == Candidates(fs, init) + FolderCandidates(fs, last);
        if last in fs {
          assert Scan(fs, folders) == Some(Candidates(fs, init) + ImageFiles(last, fs[last].value));
        } else {
          assert Scan(fs, folders) == Some(Candidates(fs, init));
          assert Candidates(fs, init) + [] == Candidates(fs, init);
        }
        assert Listable(fs, folders);
      }
    }
  }

  /** The loop at desk.py:103-111: append every image entry of every directory; a listing that raises aborts. */
  method EnumerateCandidates(fs: FileSystem, folders: seq<string>) returns (paths: Option<seq<string>>)
    ensures paths == Scan(fs, folders)
  {
    var found: seq<string> := [];
    for i := 0 to |folders|
      invariant Scan(fs, folders[..i]) == Some(found)
    {
      assert folders[..i + 1][..i] == folders[..i];
      var folder := folders[i];
      if folder !in fs {
        continue;
      }
      if fs[folder].None? {
        assert folders[i] in fs && fs[folders[i]].None?;
        ScanOutcome(fs, folders);
        return None;
      }
      var names := fs[folder].value;
      var before := found;
      for j := 0 to |names|
        invariant found == before + ImageFiles(folder, names[..j])
      {
        assert names[..j + 1][..j] == names[..j];
        if IsImageName(names[j]) {
          found := found + [Join(folder, names[j])];
        }
      }
      assert names[..|names|] == names;
    }
    assert folders[..|folders|] == folders;
    return Some(found);
  }

  /**
   * The scan with unlistable directories skipped, as the documented design asks:
   * it always succeeds and yields `Candidates`.
   */
  method EnumerateSkippingUnlistable(fs: FileSystem, folders: seq<string>) returns (paths: seq<string>)
    ensures paths == Candidates(fs, folders)
  {
    paths := [];
    for i := 0 to |folders|
      invariant paths == Candidates(fs, folders[..i])
    {
      assert folders[..i + 1][..i] == folders[..i];
      var folder := folders[i];
      if folder !in fs || fs[folder].None? {
        continue;
      }
      var names := fs[folder].value;
      for j := 0 to |names|
        invariant paths == Candidates(fs, folders[..i]) + ImageFiles(folder, names[..j])
      {
        assert names[..j + 1][..j] == names[..j];
        if IsImageName(names[j]) {
          paths := paths + [Join(folder, names[j])];
        }
      }
      assert names[..|names|] == names;
    }
    assert folders[..|folders|] == folders;
  }

  /**
   * Where the two differ: a directory that cannot be listed, given before a readable
   * one, makes the scan as written raise, while skipping it keeps the readable one's images.
   */
  lemma UnlistableFolderAbortsScan(fs: FileSystem, bad: string, good: string)
    requires bad in fs && fs[bad] == None
    requires good in fs && fs[good].Some?
    ensures Scan(fs, [bad, good]) == None
    ensures Candidates(fs, [bad, good]) == ImageFiles(good, fs[good].value)
  {
    assert [bad, good][..1] == [bad];
    assert [bad][..0] == [];
    assert Candidates(fs, [bad]) == [];
  }

  /** `folder` is a directory that lists `name`, and `name` passes the extension test. */
  predicate ListedImage(fs: FileSystem, folder: string, name: string)
  {
    folder in fs && fs[folder].Some? && name in fs[folder].value && IsImageName(name)
  }

  lemma {:induction false} ImageFilesAreImages(folder: string, names: seq<string>)
    ensures forall p :: p in ImageFiles(folder, names) ==> IsImageName(p)
  {
    if names != [] {
      var last := names[|names| - 1];
      ImageFilesAreImages(folder, names[..|names| - 1]);
      if IsImageName(last) {
        JoinKeepsImageExtension(folder, last);
      }
    }
  }

  /** Every emitted path ends, case-insensitively, with one of the allowed extensions. */
  lemma {:induction false} CandidatesAreImages(fs: FileSystem, folders: seq<string>)
    ensures forall p :: p in Candidates(fs, folders) ==> IsImageName(p)
  {
    if folders != [] {
      var last := folders[|folders| - 1];
      CandidatesAreImages(fs, folders[..|folders| - 1]);
      if last in fs && fs[last].Some? {
        ImageFilesAreImages(last, fs[last].value);
      }
    }
  }

  lemma {:induction false} ImageFilesMembership(folder: string, names: seq<string>, p: string)
    ensures p in ImageFiles(folder, names) <==>
            exists name :: name in names && IsImageName(name) && p == Join(folder, name)
  {
    if names != [] {
      var init, last := names[..|names| - 1], names[|names| - 1];
      assert names == init + [last];
      ImageFilesMembership(folder, init, p);
    }
  }

  /**
   * A path is a candidate exactly when some given folder is a directory listing an
   * image name that joins onto that folder to give the path.
   */
  lemma {:induction false} CandidatesMembership(fs: FileSystem, folders: seq<string>, p: string)
    ensures p in Candidates(fs, folders) <==>
            exists i, name :: 0 <= i < |folders| && ListedImage(fs, folders[i], name) && p == Join(folders[i], name)
  {
    if folders != [] {
      var init, last := folders[..|folders| - 1], folders[|folders| - 1];
      CandidatesMembership(fs, init, p);
      if last in fs && fs[last].Some? {
        ImageFilesMembership(last, fs[last].value, p);
      }
      if p in Candidates(fs, folders) {
        if p in Candidates(fs, init) {
          var i, name :| 0 <= i < |init| && ListedImage(fs, init[i], name) && p == Join(init[i], name);
          assert folders[i] == init[i];
        } else {
          var name :| name in fs[last].value && IsImageName(name) && p == Join(last, name);
          assert ListedImage(fs, folders[|folders| - 1], name);
        }
      } else {
        forall i, name | 0 <= i < |folders| && ListedImage(fs, folders[i], name)
          ensures p != Join(folders[i], name)
        {
          if i < |init| {
            assert init[i] == folders[i];
          }
        }
      }
    }
  }

  /** The scan is compositional: folders are visited in the order given. */
  lemma {:induction false} CandidatesAppend(fs: FileSystem, a: seq<string>, b: seq<string>)
    ensures Candidates(fs, a + b) == Candidates(fs, a) + Candidates(fs, b)
  {
    if b != [] {
      var init := b[..|b| - 1];
      assert (a + b)[..|a + b| - 1] == a + init;
      CandidatesAppend(fs, a, init);
    } else {
      assert a + b == a;
    }
  }

  /** A folder that is not a directory contributes nothing and does not stop the scan. */
  lemma SkipsNonDirectory(fs: FileSystem, before: seq<string>, folder: string, after: seq<string>)
    requires folder !in fs
    ensures Candidates(fs, before + [folder] + after) == Candidates(fs, before) + Candidates(fs, after)
  {
    CandidatesAppend(fs, before + [folder], after);
    assert (before + [folder])[..|before|] == before;
  }

  /**
   * With the intended skipping, a directory that cannot be listed contributes nothing
   * and the scan goes on with the following folders.
   */
  lemma SkipsUnlistable(fs: FileSystem, before: seq<string>, folder: string, after: seq<string>)
    requires folder in fs && fs[folder] == None
    ensures Candidates(fs, before + [folder] + after) == Candidates(fs, before) + Candidates(fs, after)
  {
    CandidatesAppend(fs, before + [folder], after);
    var upTo := before + [folder];
    assert upTo[..|upTo| - 1] == before;
    assert FolderCandidates(fs, folder) == [];
    assert Candidates(fs, upTo) == Candidates(fs, before);
  }

  /** How many times `p` occurs in the scan of each folder, summed over the folders. */
  function Occurrences(fs: FileSystem, folders: seq<string>, p: string): nat
  {
    if folders == [] then 0
    else Occurrences(fs, folders[..|folders| - 1], p) + multiset(FolderCandidates(fs, folders[|folders| - 1]))[p]
  }

  /**
   * No deduplication: a path occurs in the scan as many times as the folders that
   * reach it list it, so a file reachable from two folders is emitted twice.
   */
  lemma {:induction false} NoDeduplication(fs: FileSystem, folders: seq<string>, p: string)
    ensures multiset(Candidates(fs, folders))[p] == Occurrences(fs, folders, p)
  {
    if folders != [] {
      NoDeduplication(fs, folders[..|folders| - 1], p);
    }
  }

  /** The same folder configured twice yields its images twice. */
  lemma FolderGivenTwice(fs: FileSystem, folder: string)
    ensures Candidates(fs, [folder, folder]) == FolderCandidates(fs, folder) + FolderCandidates(fs, folder)
  {
    assert [folder, folder][..1] == [folder];
    assert [folder][..0] == [];
    assert Candidates(fs, [folder]) == FolderCandidates(fs, folder);
  }

  /** The extension test ignores case and rejects other extensions. */
  lemma ExtensionExamples()
    ensures IsImageName("a.jpg") && !IsImageName("notes.txt") && IsImageName("b.PNG") && IsImageName("c.bmp")
  {
    LowerExample("a.jpg");
    LowerExample("notes.txt");
    LowerExample("c.bmp");
    var l := Lower("b.PNG");
    assert l[2] == 'p' && l[3] == 'n' && l[4] == 'g';
    assert l == "b.png";
  }

  /** A name with no capital letter is its own lower-case form. */
  lemma LowerExample(s: string)
    requires forall i :: 0 <= i < |s| ==> !('A' <= s[i] <= 'Z')
    ensures Lower(s) == s
  {
  }
}
