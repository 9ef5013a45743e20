/**
 The release helper of scripts/version.py: reading the version printed by
 `poetry version`, checking that the work happens on a clean `main` branch,
 rewriting `__version__` in scripts/__init__.py, and the order of the
 commands `bump_version` runs. Subprocesses are replaced by a `Repo` record
 holding what each command prints and which command, if any, exits non-zero.
 */
module Version {
  import opened Results
  import opened Text

  const MainBranch := "main"

  /** The one line `git status --porcelain --branch` prints for a clean
      `main` that is level with its remote. */
  const CleanStatusLine := "## main...origin/main"

  const VersionTypes: seq<string> := ["major", "minor", "patch"]

  const InitPath := "scripts/__init__.py"
  const ProjectPath := "pyproject.toml"

  datatype BumpError =
    | BadVersionType
    | NotOnMain(branch: string)
    | DirtyTree
    | MalformedVersionOutput(output: string)
    | CommandFailed(cmd: Command)

  // ------------------------------------------------------- command output

  /** `get_version`: the second space-separated field of the output of
      `poetry version`, stripped. An output without a space has no second
      field, and indexing it raises. */
  function GetVersion(stdout: string): (r: Result<string, BumpError>)
    ensures r.Err? <==> ' ' !in stdout
    ensures r.Err? ==> r.error == MalformedVersionOutput(stdout)
    ensures r.Ok? ==> ' ' !in r.value
    ensures r.Ok? && r.value != [] ==> !IsSpace(r.value[0]) && !IsSpace(r.value[|r.value| - 1])
  {
    var fields := Split(stdout, " ");
    SplitOneCharCount(stdout, ' ');
    if |fields| < 2 then Err(MalformedVersionOutput(stdout))
    else
      SplitPartsFree(stdout, ' ');
      StripKeepsOut(fields[1], ' ');
      Ok(Strip(fields[1]))
  }

  /** A stripped slice holds no character its source lacks. */
  lemma StripKeepsOut(s: string, c: char)
    requires c !in s
    ensures c !in Strip(s)
  {
    var lo, hi :| 0 <= lo <= hi <= |s| && Strip(s) == s[lo..hi];
    forall k | 0 <= k < |Strip(s)| ensures Strip(s)[k] != c {
      assert Strip(s)[k] == s[lo + k];
    }
  }

  /** The usual `poetry version` output, the project name, a space, the
      version and any trailing whitespace (a line feed, or nothing at all),
      reads back as the version. */
  lemma PoetryOutputVersion(name: string, ver: string, post: string)
    requires ' ' !in name
    requires forall i :: 0 <= i < |ver| ==> !IsSpace(ver[i])
    requires AllSpace(post)
    ensures GetVersion(name + " " + ver + post) == Ok(ver)
  {
    assert ' ' !in ver;
    var field := VersionField(ver, post);
    var out := name + " " + ver + post;
    assert out == name + [' '] + (ver + post);
    SplitAfter(name, ' ', ver + post);
    var fields := Split(out, " ");
    assert fields == [name] + Split(ver + post, " ");
    assert |fields| >= 2 && fields[1] == field;
  }

  /** The field that follows the name: the version and the whitespace up to
      the next space, if any, which stripping removes again. */
  lemma VersionField(ver: string, post: string) returns (field: string)
    requires ' ' !in ver
    requires forall i :: 0 <= i < |ver| ==> !IsSpace(ver[i])
    requires AllSpace(post)
    ensures Split(ver + post, " ")[0] == field && Strip(field) == ver
  {
    if ' ' in post {
      var j := FirstIndex(post, ' ');
      var p1, p2 := post[..j], post[j + 1..];
      assert post == p1 + [' '] + p2;
      assert ver + post == (ver + p1) + [' '] + p2;
      SplitAfter(ver + p1, ' ', p2);
      field := ver + p1;
      assert AllSpace(p1) by {
        forall k | 0 <= k < |p1| ensures IsSpace(p1[k]) {
          assert p1[k] == post[k];
        }
      }
      StripTrailing(ver, p1);
    } else {
      OccursOneChar(ver + post, ' ');
      SplitWithout(ver + post, " ");
      field := ver + post;
      StripTrailing(ver, post);
    }
  }

  /** The position of the first `c` in `s`. */
  function FirstIndex(s: string, c: char): (j: nat)
    requires c in s
    ensures j < |s| && s[j] == c && c !in s[..j]
  {
    if s[0] == c then 0
    else
      var j := FirstIndex(s[1..], c);
      assert s[1..][..j] == s[1..j + 1];
      1 + j
  }

  /** `get_branch`: the output of `git branch --show-current`, stripped. */
  function GetBranch(stdout: string): (branch: string)
    ensures exists lo, hi :: 0 <= lo <= hi <= |stdout| && branch == stdout[lo..hi] && AllSpace(stdout[..lo]) && AllSpace(stdout[hi..])
    ensures branch != [] ==> !IsSpace(branch[0]) && !IsSpace(branch[|branch| - 1])
  {
    Strip(stdout)
  }

  /** A branch name printed on its own line reads back as itself. */
  lemma BranchLine(b: string)
    requires b != [] ==> !IsSpace(b[0]) && !IsSpace(b[|b| - 1])
    ensures GetBranch(b + "\n") == b
  {
    StripTrailing(b, "\n");
  }

  /** `is_clean_main_branch`: the stripped status output, split at line
      feeds, is the single clean-main line. */
  function IsCleanMainBranch(status: string): (clean: bool)
    ensures clean <==> Strip(status) == CleanStatusLine
  {
    var lines := Split(Strip(status), "\n");
    SplitOneCharCount(Strip(status), '\n');
    assert '\n' !in CleanStatusLine;
    |lines| == 1 && lines[0] == CleanStatusLine
  }

  /** The clean status line, with the line feed git ends it with, is clean. */
  lemma CleanStatusIsClean()
    ensures IsCleanMainBranch(CleanStatusLine + "\n")
  {
    StripTrailing(CleanStatusLine, "\n");
  }

  /** Any further status line, such as a modified file, makes the tree unclean. */
  lemma ChangedFileIsDirty(change: string)
    requires change != [] && !IsSpace(change[|change| - 1])
    ensures !IsCleanMainBranch(CleanStatusLine + "\n" + change + "\n")
  {
    var body := CleanStatusLine + "\n" + change;
    assert body[0] == '#';
    assert body[|body| - 1] == change[|change| - 1];
    StripTrailing(body, "\n");
  }

  /** The branch gate of `check_branch`, given the stripped branch name and
      the raw status output: the branch is tested first, and the tree only
      on `main`. */
  function CheckBranch(branch: string, status: string): (r: Result<(), BumpError>)
    ensures r.Ok? <==> branch == MainBranch && Strip(status) == CleanStatusLine
    ensures branch != MainBranch ==> r == Err(NotOnMain(branch))
    ensures branch == MainBranch && Strip(status) != CleanStatusLine ==> r == Err(DirtyTree)
  {
    if branch != MainBranch then Err(NotOnMain(branch))
    else if !IsCleanMainBranch(status) then Err(DirtyTree)
    else Ok(())
  }

  // ------------------------------------------------------------- messages

  const NotMainPrefix := "The current Git branch is not 'main': "
  const NotMainSuffix := "\nPlease switch to the 'main' branch before running this.\nAborting version bump."
  const DirtyMessage := "There are uncommitted or unpushed changes.\nPlease ensure the 'main' branch is clean before running this.\nAborting version bump."
  const BadTypeMessage := "version_type must be 'major', 'minor', or 'patch'"

  function NotOnMainMessage(branch: string): string {
    NotMainPrefix + branch + NotMainSuffix
  }

  /** The text of the `ValueError` or `RuntimeError` `bump_version` raises
      itself; errors raised by Python or by `subprocess` carry their own. */
  function Message(e: BumpError): (m: Option<string>)
    ensures m.Some? <==> e.BadVersionType? || e.NotOnMain? || e.DirtyTree?
    ensures e.NotOnMain? ==> m.Some? && BranchOfMessage(m.value) == Some(e.branch)
  {
    match e
    case BadVersionType => Some(BadTypeMessage)
    case NotOnMain(b) =>
      BranchMessageRoundTrip(b);
      Some(NotOnMainMessage(b))
    case DirtyTree => Some(DirtyMessage)
    case _ => None
  }

  /** Reads the branch name back out of a not-on-main message. */
  function BranchOfMessage(m: string): Option<string> {
    if |NotMainPrefix| + |NotMainSuffix| <= |m|
      && m[..|NotMainPrefix|] == NotMainPrefix
      && m[|m| - |NotMainSuffix|..] == NotMainSuffix
    then Some(m[|NotMainPrefix|..|m| - |NotMainSuffix|])
    else None
  }

  /** The not-on-main message names the offending branch, whatever it is. */
  lemma BranchMessageRoundTrip(b: string)
    ensures BranchOfMessage(NotOnMainMessage(b)) == Some(b)
  {
    var m := NotOnMainMessage(b);
    assert m[..|NotMainPrefix|] == NotMainPrefix;
    assert m[|m| - |NotMainSuffix|..] == NotMainSuffix;
    assert m[|NotMainPrefix|..|m| - |NotMainSuffix|] == b;
  }

  /** The closing message, naming the new version and the pushes still to do. */
  function CompletionMessage(v: string): (m: string)
    ensures |CompletionIntro| + |v| <= |m|
    ensures m[..|CompletionIntro|] == CompletionIntro
    ensures m[|CompletionIntro|..|CompletionIntro| + |v|] == v
  {
    CompletionIntro + v + CompletionOutro
  }

  const CompletionIntro := "Bumped version to "
  const CompletionOutro := ".\nDon't forget to push the changes and the tag to the remote repository by running:\n\n\tgit push\n\tgit push --tags"

  // ------------------------------------------------------ __init__.py text

  /** The assignment line `update_init_py_version` looks for. */
  function VersionAssignment(v: string): (line: string)
    ensures line != []
  {
    "__version__ = \"" + v + "\""
  }

  /** `update_init_py_version`: every non-overlapping occurrence of the
      current version's assignment, left to right, becomes the new one's;
      the text between occurrences is kept. */
  function UpdateInitPyVersion(text: string, current: string, next: string): (r: string)
    ensures r == Join(Split(text, VersionAssignment(current)), VersionAssignment(next))
    ensures !Occurs(text, VersionAssignment(current)) ==> r == text
    ensures current == next ==> r == text
  {
    ReplaceUnchanged(text, VersionAssignment(current), VersionAssignment(next));
    Replace(text, VersionAssignment(current), VersionAssignment(next))
  }

  /** A file holding the current assignment once gets exactly that line
      rewritten; what comes before and after it is unchanged. */
  lemma RewritesTheAssignment(before: string, current: string, next: string, after: string)
    requires forall k :: 0 <= k < |before| ==> !OccursAt(before + VersionAssignment(current), VersionAssignment(current), k)
    requires !Occurs(after, VersionAssignment(current))
    ensures UpdateInitPyVersion(before + VersionAssignment(current) + after, current, next)
         == before + VersionAssignment(next) + after
  {
    ReplaceAfter(before, VersionAssignment(current), after, VersionAssignment(next));
    ReplaceUnchanged(after, VersionAssignment(current), VersionAssignment(next));
  }

  // -------------------------------------------------------- commit and tag

  const CommitIntro := "Bump version to "

  function CommitMessage(v: string): string { CommitIntro + v }

  function TagName(v: string): string { "v" + v }

  /** Reads the version back out of a commit message, if it is a bump commit. */
  function VersionOfCommit(m: string): Option<string> {
    if |CommitIntro| <= |m| && m[..|CommitIntro|] == CommitIntro then Some(m[|CommitIntro|..]) else None
  }

  /** Reads the version back out of a tag name, if it starts with `v`. */
  function VersionOfTag(t: string): Option<string> {
    if |t| >= 1 && t[0] == 'v' then Some(t[1..]) else None
  }

  /** Commit message and tag both name the new version: reading them back
      gives it, so distinct versions get distinct tags and messages. */
  lemma CommitAndTagRoundTrip(v: string)
    ensures VersionOfCommit(CommitMessage(v)) == Some(v)
    ensures VersionOfTag(TagName(v)) == Some(v)
  {
    assert CommitMessage(v)[..|CommitIntro|] == CommitIntro;
    assert CommitMessage(v)[|CommitIntro|..] == v;
    assert TagName(v)[1..] == v;
  }

  // ---------------------------------------------------------- the bump run

  datatype Command =
    | ShowBranch                // git branch --show-current
    | PorcelainStatus           // git status --porcelain --branch
    | ShowVersion               // poetry version
    | PoetryBump(kind: string)  // poetry version <kind>
    | GitAdd(path: string)
    | GitCommit(message: string)
    | GitTag(name: string)

  /** What the commands print, and the (zero-based) position among the
      commands run of the first one that exits non-zero, if any. */
  datatype Repo = Repo(
    branchOutput: string,
    statusOutput: string,
    versionOutput: string,
    bumpedVersionOutput: string,
    initPy: string,
    failsAt: Option<nat>)

  /** A command that changes the project or the repository. */
  predicate Mutates(cmd: Command) {
    cmd.PoetryBump? || cmd.GitAdd? || cmd.GitCommit? || cmd.GitTag?
  }

  /** The branch gate passes for what the repository prints. */
  predicate BranchReady(repo: Repo) {
    CheckBranch(GetBranch(repo.branchOutput), repo.statusOutput).Ok?
  }

  /** Both `poetry version` outputs can be read. */
  predicate VersionsReadable(repo: Repo) {
    GetVersion(repo.versionOutput).Ok? && GetVersion(repo.bumpedVersionOutput).Ok?
  }

  /** The first `n` commands run all succeed. */
  predicate Survives(repo: Repo, n: nat) {
    repo.failsAt.None? || repo.failsAt.value >= n
  }

  /** A run that stops at an output it cannot read: the `n` commands run end
      with the first or the second `poetry version`, and `output` is what
      that one printed. */
  predicate UnreadableRead(repo: Repo, n: nat, output: string) {
    && GetVersion(output).Err?
    && (|| (n == 3 && output == repo.versionOutput)
        || (n == 5 && output == repo.bumpedVersionOutput))
  }

  function CurrentVersion(repo: Repo): string {
    var r := GetVersion(repo.versionOutput); if r.Ok? then r.value else ""
  }

  function NewVersion(repo: Repo): string {
    var r := GetVersion(repo.bumpedVersionOutput); if r.Ok? then r.value else ""
  }

  /** The commands a successful bump runs, in order; `__init__.py` is
      rewritten between the fifth and the sixth. */
  function BumpCommands(kind: string, next: string): seq<Command> {
    GateAndBumpCommands(kind) + GitCommands(next)
  }

  /** The commands up to and including the second `poetry version`: the
      branch gate, the version read, the bump and the read of the new version. */
  function GateAndBumpCommands(kind: string): seq<Command> {
    [ShowBranch, PorcelainStatus, ShowVersion, PoetryBump(kind), ShowVersion]
  }

  /** The commands of `git_add_commit_version_tag`, in order. */
  function GitCommands(next: string): seq<Command> {
    [GitAdd(InitPath), GitAdd(ProjectPath), GitCommit(CommitMessage(next)), GitTag(TagName(next))]
  }

  const CommandsBeforeWrite := 5

  /** The position of `poetry version <kind>`, the first command that changes anything. */
  const FirstMutation := 3

  /** Every command before `FirstMutation` only reads, and the one at it
      changes the project. */
  lemma OnlyLaterCommandsMutate(kind: string, next: string)
    ensures forall i :: 0 <= i < |BumpCommands(kind, next)| && Mutates(BumpCommands(kind, next)[i]) ==> i >= FirstMutation
    ensures Mutates(BumpCommands(kind, next)[FirstMutation])
  {
    var cmds := BumpCommands(kind, next);
    assert cmds == [ShowBranch, PorcelainStatus, ShowVersion, PoetryBump(kind), ShowVersion,
                    GitAdd(InitPath), GitAdd(ProjectPath), GitCommit(CommitMessage(next)), GitTag(TagName(next))];
    forall i | 0 <= i < FirstMutation ensures !Mutates(cmds[i]) {
      assert cmds[i] in [ShowBranch, PorcelainStatus, ShowVersion];
    }
  }

  /** Runs one command (`subprocess.run(..., check=True)`): it is recorded,
      and it succeeds unless it is the one the repository fails at. */
  method Run(repo: Repo, trace: seq<Command>, cmd: Command) returns (out: seq<Command>, ok: bool)
    ensures out == trace + [cmd]
    ensures ok <==> repo.failsAt != Some(|trace|)
    ensures ok && Survives(repo, |trace|) ==> Survives(repo, |out|)
  {
    out := trace + [cmd];
    ok := repo.failsAt != Some(|trace|);
  }

  /** `bump_version`: the whitelist, `check_branch`, the current version,
      `poetry version <kind>`, the new version, the `__init__.py` rewrite,
      then `git_add_commit_version_tag`; the first failure ends the run.
      `trace` lists the commands run, `written` the new `__init__.py` text
      if the file was rewritten, and an `Ok` result the closing message. */
  method BumpVersion(kind: string, repo: Repo) returns (trace: seq<Command>, written: Option<string>, result: Result<string, BumpError>)
    ensures result == Err(BadVersionType) <==> kind !in VersionTypes
    ensures kind !in VersionTypes ==> trace == [] && written == None
    ensures trace <= BumpCommands(kind, NewVersion(repo))
    ensures result.Ok? <==>
      kind in VersionTypes && BranchReady(repo) && VersionsReadable(repo) && Survives(repo, |BumpCommands(kind, "")|)
    ensures result.Ok? ==> trace == BumpCommands(kind, NewVersion(repo)) && result.value == CompletionMessage(NewVersion(repo))
    ensures written.Some? <==> |trace| > CommandsBeforeWrite
    ensures written.Some? ==>
      written.value == UpdateInitPyVersion(repo.initPy, CurrentVersion(repo), NewVersion(repo))
      && BranchReady(repo) && VersionsReadable(repo)
    ensures |trace| > 1 ==> GetBranch(repo.branchOutput) == MainBranch
    ensures |trace| > 2 ==> BranchReady(repo)
    ensures |trace| > FirstMutation ==> BranchReady(repo) && GetVersion(repo.versionOutput).Ok?
    ensures result.Err? && result.error.NotOnMain? ==>
      result.error.branch == GetBranch(repo.branchOutput) && result.error.branch != MainBranch && trace == [ShowBranch]
    ensures result == Err(DirtyTree) ==> trace == [ShowBranch, PorcelainStatus] && !IsCleanMainBranch(repo.statusOutput)
    ensures result.Err? && result.error.MalformedVersionOutput? ==> UnreadableRead(repo, |trace|, result.error.output)
    ensures result.Err? && result.error.CommandFailed? ==>
      trace != [] && trace[|trace| - 1] == result.error.cmd && repo.failsAt == Some(|trace| - 1)
    ensures repo.failsAt.Some? && repo.failsAt.value < |trace| ==>
      result.Err? && result.error.CommandFailed?
  {
    if kind !in VersionTypes {
      return [], None, Err(BadVersionType);
    }
    var r;
    trace, r := CheckBranchRun(repo);
    if r.Err? {
      return trace, None, Err(r.error);
    }
    trace, written, result := ReleaseRun(kind, repo, trace);
  }

  /** The part of `bump_version` after the branch gate has passed. */
  method ReleaseRun(kind: string, repo: Repo, trace: seq<Command>) returns (out: seq<Command>, written: Option<string>, result: Result<string, BumpError>)
    requires trace == [ShowBranch, PorcelainStatus] && Survives(repo, 2)
    ensures 2 < |out| && out <= BumpCommands(kind, NewVersion(repo))
    ensures result.Ok? <==> VersionsReadable(repo) && Survives(repo, |BumpCommands(kind, "")|)
    ensures result.Ok? ==> out == BumpCommands(kind, NewVersion(repo)) && result.value == CompletionMessage(NewVersion(repo))
    ensures result.Err? ==> result.error.CommandFailed? || result.error.MalformedVersionOutput?
    ensures written.Some? <==> |out| > CommandsBeforeWrite
    ensures written.Some? ==>
      written.value == UpdateInitPyVersion(repo.initPy, CurrentVersion(repo), NewVersion(repo)) && VersionsReadable(repo)
    ensures |out| > FirstMutation ==> GetVersion(repo.versionOutput).Ok?
    ensures result.Err? && result.error.CommandFailed? ==>
      out[|out| - 1] == result.error.cmd && repo.failsAt == Some(|out| - 1)
    ensures result.Err? && !result.error.CommandFailed? ==> Survives(repo, |out|)
    ensures result.Err? && result.error.MalformedVersionOutput? ==> UnreadableRead(repo, |out|, result.error.output)
  {
    var versions;
    out, versions := BumpAndReadRun(kind, repo, trace);
    GateAndBumpPrefix(kind, NewVersion(repo), |out|);
    if versions.Err? {
      var e := versions.error;
      assert !e.CommandFailed? ==> Survives(repo, |out|);
      return out, None, Err(e);
    }
    var (current, next) := versions.value;
    out, written, result := PublishRun(repo, out, current, next);
    assert result.Err? ==> result.error.CommandFailed?;
    PlanPrefix(kind, next, out, |out| - CommandsBeforeWrite);
  }

  /** The end of `bump_version`: `__init__.py` is rewritten, the change
      committed and tagged, and the closing message returned. */
  method PublishRun(repo: Repo, trace: seq<Command>, current: string, next: string) returns (out: seq<Command>, written: Option<string>, result: Result<string, BumpError>)
    requires Survives(repo, |trace|)
    ensures written == Some(UpdateInitPyVersion(repo.initPy, current, next))
    ensures |trace| < |out| <= |trace| + |GitCommands(next)|
    ensures out == trace + GitCommands(next)[..|out| - |trace|]
    ensures result.Ok? <==> Survives(repo, |trace| + |GitCommands(next)|)
    ensures result.Ok? ==> out == trace + GitCommands(next) && result.value == CompletionMessage(next)
    ensures result.Err? ==>
      result.error.CommandFailed? && out[|out| - 1] == result.error.cmd && repo.failsAt == Some(|out| - 1)
  {
    written := Some(UpdateInitPyVersion(repo.initPy, current, next));
    var ok;
    out, ok := GitAddCommitTag(repo, trace, next);
    if !ok {
      return out, written, Err(CommandFailed(out[|out| - 1]));
    }
    result := Ok(CompletionMessage(next));
  }

  /** The version read, `poetry version <kind>` and the read of the new
      version; the first failure, or an output that cannot be read, ends it. */
  method BumpAndReadRun(kind: string, repo: Repo, trace: seq<Command>) returns (out: seq<Command>, versions: Result<(string, string), BumpError>)
    requires trace == [ShowBranch, PorcelainStatus] && Survives(repo, 2)
    ensures 2 < |out| <= CommandsBeforeWrite && out == GateAndBumpCommands(kind)[..|out|]
    ensures versions.Ok? <==> VersionsReadable(repo) && Survives(repo, CommandsBeforeWrite)
    ensures versions.Ok? ==> out == GateAndBumpCommands(kind) && versions.value == (CurrentVersion(repo), NewVersion(repo))
    ensures |out| > FirstMutation ==> GetVersion(repo.versionOutput).Ok?
    ensures versions.Err? ==> versions.error.CommandFailed? || versions.error.MalformedVersionOutput?
    ensures versions.Err? && versions.error.CommandFailed? ==>
      out[|out| - 1] == versions.error.cmd && repo.failsAt == Some(|out| - 1)
    ensures versions.Err? && !versions.error.CommandFailed? ==> Survives(repo, |out|)
    ensures versions.Err? && versions.error.MalformedVersionOutput? ==> UnreadableRead(repo, |out|, versions.error.output)
  {
    var current;
    out, current := GetVersionRun(repo, trace, repo.versionOutput);
    if current.Err? {
      return out, Err(current.error);
    }
    var ok;
    out, ok := Run(repo, out, PoetryBump(kind));
    if !ok {
      return out, Err(CommandFailed(PoetryBump(kind)));
    }
    var next;
    out, next := GetVersionRun(repo, out, repo.bumpedVersionOutput);
    if next.Err? {
      return out, Err(next.error);
    }
    versions := Ok((current.value, next.value));
  }

  /** The first five commands followed by some of the git commands are a
      prefix of the whole plan. */
  lemma PlanPrefix(kind: string, next: string, out: seq<Command>, m: nat)
    requires m <= |GitCommands(next)| && out == GateAndBumpCommands(kind) + GitCommands(next)[..m]
    ensures out <= BumpCommands(kind, next)
    ensures m == |GitCommands(next)| ==> out == BumpCommands(kind, next)
  {
    PrefixOfConcat(GateAndBumpCommands(kind), GitCommands(next), m);
  }

  /** A prefix of the first five commands is a prefix of the whole plan. */
  lemma GateAndBumpPrefix(kind: string, next: string, n: nat)
    requires n <= |GateAndBumpCommands(kind)|
    ensures GateAndBumpCommands(kind)[..n] <= BumpCommands(kind, next)
  {
  }

  /** Extending a sequence by a prefix of another is a prefix of their concatenation. */
  lemma PrefixOfConcat<T>(a: seq<T>, b: seq<T>, m: nat)
    requires m <= |b|
    ensures (a + b)[..|a| + m] == a + b[..m]
  {
  }

  /** `check_branch` with the commands it runs: the branch first, and the
      status only on `main`. */
  method CheckBranchRun(repo: Repo) returns (trace: seq<Command>, r: Result<(), BumpError>)
    ensures trace == [ShowBranch] || trace == [ShowBranch, PorcelainStatus]
    ensures r.Ok? <==> BranchReady(repo) && Survives(repo, 2)
    ensures r.Ok? ==> |trace| == 2
    ensures r.Err? && r.error.CommandFailed? ==> r.error.cmd == trace[|trace| - 1] && repo.failsAt == Some(|trace| - 1)
    ensures r.Err? && !r.error.CommandFailed? ==>
      Survives(repo, |trace|) && r == CheckBranch(GetBranch(repo.branchOutput), repo.statusOutput)
    ensures r.Err? ==> r.error.CommandFailed? || r.error.NotOnMain? || r.error.DirtyTree?
    ensures r.Err? && r.error.NotOnMain? ==> trace == [ShowBranch]
    ensures |trace| == 2 ==> GetBranch(repo.branchOutput) == MainBranch
    ensures r == Err(DirtyTree) ==> |trace| == 2
  {
    var ok;
    trace, ok := Run(repo, [], ShowBranch);
    if !ok {
      return trace, Err(CommandFailed(ShowBranch));
    }
    var branch := GetBranch(repo.branchOutput);
    if branch != MainBranch {
      return trace, Err(NotOnMain(branch));
    }
    trace, ok := Run(repo, trace, PorcelainStatus);
    if !ok {
      return trace, Err(CommandFailed(PorcelainStatus));
    }
    if !IsCleanMainBranch(repo.statusOutput) {
      return trace, Err(DirtyTree);
    }
    r := Ok(());
  }

  /** `get_version` with its command: `poetry version` is run, then its
      output read. */
  method GetVersionRun(repo: Repo, trace: seq<Command>, output: string) returns (out: seq<Command>, r: Result<string, BumpError>)
    ensures out == trace + [ShowVersion]
    ensures repo.failsAt == Some(|trace|) ==> r == Err(CommandFailed(ShowVersion))
    ensures repo.failsAt != Some(|trace|) ==> r == GetVersion(output)
    ensures r != Err(CommandFailed(ShowVersion)) && Survives(repo, |trace|) ==> Survives(repo, |out|)
  {
    var ok;
    out, ok := Run(repo, trace, ShowVersion);
    if !ok {
      return out, Err(CommandFailed(ShowVersion));
    }
    r := GetVersion(output);
  }

  /** `git_add_commit_version_tag`: stage both files, commit, tag; the first
      command that fails ends it. */
  method GitAddCommitTag(repo: Repo, trace: seq<Command>, v: string) returns (out: seq<Command>, ok: bool)
    requires Survives(repo, |trace|)
    ensures |trace| < |out| <= |trace| + 4
    ensures out == trace + GitCommands(v)[..|out| - |trace|]
    ensures ok <==> Survives(repo, |trace| + 4)
    ensures ok ==> |out| == |trace| + 4
    ensures !ok ==> repo.failsAt == Some(|out| - 1)
  {
    var planned := GitCommands(v);
    out, ok := Run(repo, trace, planned[0]);
    assert out == trace + planned[..1];
    if !ok {
      return;
    }
    out, ok := Run(repo, out, planned[1]);
    assert out == trace + planned[..2];
    if !ok {
      return;
    }
    out, ok := Run(repo, out, planned[2]);
    assert out == trace + planned[..3];
    if !ok {
      return;
    }
    out, ok := Run(repo, out, planned[3]);
    assert out == trace + planned[..4];
  }
}
