/**
 * Where a finding's comment is anchored: the working-directory prefix taken
 * from INPUT_WORKING_DIRECTORY and the file name derived from the result
 * group's target, by removing the GITHUB_WORKSPACE prefix pattern.
 */
module PathResolver {
  import opened GoStrings

  /**
   * INPUT_WORKING_DIRECTORY as the loop uses it: left empty when unset or
   * empty; otherwise one leading "./" is dropped and the value is made to end
   * in a single added "/" (a trailing "/" already there is dropped first).
   */
  function NormaliseWorkingDir(dir: string): (r: string)
    ensures r == [] <==> dir == []
    ensures dir != [] ==> r[|r| - 1] == '/'
    ensures dir != [] ==>
      var d := TrimPrefix(dir, "./");
      r == (if HasSuffix(d, "/") then d else d + "/")
  {
    if dir == [] then dir
    else TrimSuffix(TrimPrefix(dir, "./"), "/") + "/"
  }

  /** The pattern removed from targets: GITHUB_WORKSPACE followed by "/" ("/" alone when unset). */
  function WorkspacePattern(workspace: string): (p: string)
    ensures p != [] && p[|p| - 1] == '/'
    ensures HasPrefix(p, workspace)
    ensures |p| == |workspace| + 1
  {
    workspace + "/"
  }

  /**
   * The file a comment is written to: the working-directory prefix, then the
   * target with every occurrence of the workspace pattern removed, then one
   * leading "./" dropped.
   */
  function CommentFilename(workingDir: string, workspacePath: string, target: string): (filename: string)
    ensures |filename| <= |workingDir| + |target|
    ensures workingDir != "." && !HasPrefix(workingDir, "./") ==> HasPrefix(filename, workingDir)
  {
    KeepsWorkingDir(workingDir, RemoveAll(target, workspacePath));
    TrimPrefix(workingDir + RemoveAll(target, workspacePath), "./")
  }

  /** A working directory that cannot start a "./" survives the trimming of one. */
  lemma KeepsWorkingDir(workingDir: string, rest: string)
    ensures workingDir != "." && !HasPrefix(workingDir, "./") ==> HasPrefix(TrimPrefix(workingDir + rest, "./"), workingDir)
  {
    var s := workingDir + rest;
    if |workingDir| >= 2 {
      assert s[..2] == workingDir[..2];
    } else if |workingDir| == 1 {
      assert workingDir == [workingDir[0]];
      assert s[0] == workingDir[0];
    }
  }

  /** A working directory that is already normalised comes back unchanged. */
  lemma NormaliseKeepsNormalised(dir: string)
    requires dir != [] && dir[|dir| - 1] == '/' && !HasPrefix(dir, "./")
    ensures NormaliseWorkingDir(dir) == dir
  {
  }

  /** "./" (the repository root) comes out as "/", so file names then start with "/". */
  lemma NormaliseDotSlash()
    ensures NormaliseWorkingDir("./") == "/"
  {
  }

  /**
   * A relative path that is already resolved resolves to itself: no working
   * directory, no workspace pattern inside it, no leading "./".
   */
  lemma FilenameOfResolvedPath(workspacePath: string, target: string)
    requires !Contains(target, workspacePath)
    requires !HasPrefix(target, "./")
    ensures CommentFilename([], workspacePath, target) == target
  {
    RemoveAllAbsent(target, workspacePath);
    assert [] + target == target;
  }

  /**
   * A target inside the workspace is made relative to it: the leading pattern
   * is removed (as are any later ones) and the working directory put in front.
   */
  lemma {:induction false} FilenameUnderWorkspace(workingDir: string, workspacePath: string, rest: string)
    requires workspacePath != []
    requires !Contains(rest, workspacePath)
    ensures CommentFilename(workingDir, workspacePath, workspacePath + rest) == TrimPrefix(workingDir + rest, "./")
  {
    RemoveAllLeading(workspacePath, rest);
    RemoveAllAbsent(rest, workspacePath);
  }

  /**
   * With GITHUB_WORKSPACE unset the pattern is "/", so ReplaceAll deletes
   * every "/" of the target: what follows the working directory has none.
   */
  lemma {:induction false} FilenameWithoutWorkspace(workingDir: string, target: string)
    ensures CommentFilename(workingDir, WorkspacePattern([]), target) == TrimPrefix(workingDir + Without(target, '/'), "./")
    ensures workingDir == [] ==> '/' !in CommentFilename(workingDir, WorkspacePattern([]), target)
  {
    assert WorkspacePattern([]) == ['/'];
    RemoveAllSingleChar(target, '/');
    var stripped := Without(target, '/');
    if workingDir == [] {
      assert workingDir + stripped == stripped;
      if |stripped| >= 2 {
        assert stripped[1] != '/';
        assert stripped[..2] != "./";
      }
    }
  }

  /**
   * ReplaceAll is not a prefix strip: the first occurrence of the workspace
   * pattern is removed wherever it stands in the target, and removal carries
   * on in the rest.
   */
  lemma EveryOccurrenceRemoved(workingDir: string, workspacePath: string, u: string, v: string)
    requires workspacePath != []
    requires forall k :: 0 <= k < |u| ==> !(workspacePath <= (u + workspacePath + v)[k..])
    ensures CommentFilename(workingDir, workspacePath, u + workspacePath + v)
         == TrimPrefix(workingDir + u + RemoveAll(v, workspacePath), "./")
  {
    RemoveAllAfterClean(u, workspacePath, v);
    assert workingDir + (u + RemoveAll(v, workspacePath)) == workingDir + u + RemoveAll(v, workspacePath);
  }

  /** An example: both occurrences of "/w/" in "/w/a/w/b" are removed. */
  lemma TwoOccurrencesRemoved()
    ensures CommentFilename([], "/w/", "/w/a/w/b") == "ab"
  {
    RemoveAllLeading("/w/", "a/w/b");
    assert "/w/" + "a/w/b" == "/w/a/w/b";
    assert RemoveAll("/w/a/w/b", "/w/") == RemoveAll("a/w/b", "/w/");
    assert "a/w/b"[0] != "/w/"[0];
    assert "a/w/b"[1..] == "/w/b";
    assert RemoveAll("a/w/b", "/w/") == "a" + RemoveAll("/w/b", "/w/");
    RemoveAllLeading("/w/", "b");
    assert "/w/" + "b" == "/w/b";
    assert RemoveAll("b", "/w/") == "b";
    assert "ab"[0] != "./"[0];
  }
}
