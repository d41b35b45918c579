/**
 * The earlier, top-level commands.rb: `cd`, `get`, `ls`, `mkdir` and `put`
 * checked by `case` on the number of arguments, their own copy of
 * `resolve_path`, and `exec`, which dispatches a line by its first word.
 * The state object these commands read and assign is the one with a
 * `working_dir`; the state.rb of the same era names that field `pwd`, so it
 * is modelled here on its own.
 */
module LegacyCommands {
  import opened Wrappers
  import opened Strings
  import opened Rewrite
  import LegacyState
  import Session

  /** What `client.metadata(path)` gives: `is_dir`, and the paths under
      `contents` when it has them. */
  datatype Meta = Meta(isDir: bool, contents: Option<seq<string>>)

  /** The Dropbox calls these commands make; `Failed` is a `DropboxError`
      carrying its message. */
  datatype Client = Client(
    metadata: string -> Session.Reply<Meta>,
    getFile: string -> Session.Reply<string>,
    createFolder: string -> Session.Reply<()>,
    putFile: (string, string) -> Session.Reply<()>)

  /** The requests a command makes, to Dropbox or to the local disk, in order. */
  datatype Call =
    | GetFile(remote: string)
    | WriteLocal(name: string, data: string)
    | CreateFolder(remote: string)
    | PutFile(remote: string, data: string)
    | RunShell(command: string)

  /** What a command yields (the lines `exec` prints) and the requests it makes. */
  datatype Effect = Effect(out: seq<string>, calls: seq<Call>)

  /** The object carrying `working_dir`. */
  class State {
    var workingDir: string

    constructor (workingDir: string)
      ensures this.workingDir == workingDir
    {
      this.workingDir := workingDir;
    }
  }

  /** `Commands.resolve_path(path, state)` (commands.rb:115-123): the same
      rewriting as the legacy `State#resolve_path`, against `working_dir`. */
  method ResolvePath(path: string, state: State) returns (r: string)
    ensures r == LegacyState.Resolve(state.workingDir, path)
  {
    var p := if StartsWith(path, "/") then path else state.workingDir + "/" + path;
    p := GsubDoubleSlash(p);
    p := RepeatSubDotDot(p);
    p := Chomp(p, "/");
    r := if p == [] then "/" else p;
  }

  /** The working directory and the yielded lines after `cd` with `args`
      from `workingDir` (commands.rb:2-18). The directory changes only when
      nothing is yielded, and then it is the root or a resolved path Dropbox
      calls a directory. */
  function CdSpec(client: Client, workingDir: string, args: seq<string>): (r: (string, seq<string>))
    ensures |r.1| <= 1
    ensures r.1 != [] ==> r.0 == workingDir
    ensures r.1 == [] <==>
              || |args| == 0
              || (&& |args| == 1
                  && client.metadata(LegacyState.Resolve(workingDir, args[0])).Done?
                  && client.metadata(LegacyState.Resolve(workingDir, args[0])).value.isDir)
    ensures r.1 == [] && |args| == 1 ==> r.0 == LegacyState.Resolve(workingDir, args[0])
  {
    if |args| == 0 then ("/", [])
    else if |args| == 1 then
      var path := LegacyState.Resolve(workingDir, args[0]);
      match client.metadata(path)
      case Done(m) => if m.isDir then (path, []) else (workingDir, ["Not a directory"])
      case Failed(_) => (workingDir, ["No such file or directory"])
    else (workingDir, ["Usage: cd [DIRECTORY]"])
  }

  /** `Commands.cd(client, state, args)` (commands.rb:2-18): no argument goes
      to the root; one argument is entered when Dropbox says it is a
      directory; anything else only yields a line. */
  method Cd(client: Client, state: State, args: seq<string>) returns (out: seq<string>)
    modifies state
    ensures |args| == 0 ==> state.workingDir == "/" && out == []
    ensures |args| == 1 ==>
              var path := LegacyState.Resolve(old(state.workingDir), args[0]);
              match client.metadata(path)
              case Done(m) =>
                if m.isDir then state.workingDir == path && out == []
                else state.workingDir == old(state.workingDir) && out == ["Not a directory"]
              case Failed(_) =>
                state.workingDir == old(state.workingDir) && out == ["No such file or directory"]
    ensures |args| >= 2 ==> state.workingDir == old(state.workingDir) && out == ["Usage: cd [DIRECTORY]"]
    ensures (state.workingDir, out) == CdSpec(client, old(state.workingDir), args)
  {
    if |args| == 0 {
      state.workingDir := "/";
      out := [];
    } else if |args| == 1 {
      var path := ResolvePath(args[0], state);
      match client.metadata(path)
      case Done(m) =>
        if m.isDir {
          state.workingDir := path;
          out := [];
        } else {
          out := ["Not a directory"];
        }
      case Failed(_) =>
        out := ["No such file or directory"];
    } else {
      out := ["Usage: cd [DIRECTORY]"];
    }
  }

  /** The source and destination of `get` and `put`: one argument is both,
      two are taken in order, anything else is `None` (commands.rb:21-27, 64-70). */
  function Endpoints(args: seq<string>): (r: Option<(string, string)>)
    ensures r.Some? <==> 1 <= |args| <= 2
    ensures r.Some? ==> r.value.0 == args[0] && r.value.1 == args[|args| - 1]
  {
    if |args| == 1 then Some((args[0], args[0]))
    else if |args| == 2 then Some((args[0], args[1]))
    else None
  }

  /** The string an argument holds once `resolve_path` has run on it
      (commands.rb:115-123). For an absolute path, `gsub!`, `sub!` and `chomp!`
      rewrite the caller's own string, and only the final `path = '/'` binds a
      new one; a relative path is first copied into a new string, so the
      argument is untouched. */
  function ResolvedInPlace(arg: string): (r: string)
    ensures !StartsWith(arg, "/") ==> r == arg
    ensures StartsWith(arg, "/") ==>
              forall wd :: LegacyState.Resolve(wd, arg) == (if r == [] then "/" else r)
  {
    if StartsWith(arg, "/") then Chomp(RemoveDotDots(GsubDoubleSlash(arg)), "/") else arg
  }

  /** `Commands.get(client, state, args)` (commands.rb:20-38): the resolved
      source is fetched and written to the basename of the destination in the
      local directory; a Dropbox error is yielded. With one argument the
      destination is the same string as the source (`from_path = to_path =
      args[0]`), so its basename is taken after `resolve_path` has rewritten it. */
  function Get(client: Client, workingDir: string, args: seq<string>): (r: Effect)
    ensures Endpoints(args).None? ==> r == Effect(["Usage: get FILE [DESTINATION]"], [])
    ensures Endpoints(args).Some? ==>
              var path := LegacyState.Resolve(workingDir, args[0]);
              var local := if |args| == 1 then ResolvedInPlace(args[0]) else args[1];
              && r.calls != [] && r.calls[0] == GetFile(path)
              && (client.getFile(path).Done? <==> r.out == [])
              && (client.getFile(path).Done? ==>
                    r.calls == [GetFile(path), WriteLocal(Basename(local), client.getFile(path).value)])
              && (client.getFile(path).Failed? ==> r == Effect([client.getFile(path).error], [GetFile(path)]))
  {
    match Endpoints(args)
    case None => Effect(["Usage: get FILE [DESTINATION]"], [])
    case Some((from, to)) =>
      var path := LegacyState.Resolve(workingDir, from);
      var local := if |args| == 1 then ResolvedInPlace(from) else to;
      match client.getFile(path)
      case Done(data) => Effect([], [GetFile(path), WriteLocal(Basename(local), data)])
      case Failed(error) => Effect([error], [GetFile(path)])
  }

  /** `Commands.ls(client, state, args)` (commands.rb:40-48): the basenames
      of the working directory's entries, in listing order; `None` is the
      exception a failed call or a missing `contents` raises, which `ls`
      does not rescue. */
  function Ls(client: Client, workingDir: string, args: seq<string>): (r: Option<seq<string>>)
    ensures args != [] ==> r == Some(["Usage: ls"])
    ensures args == [] ==>
              (r.Some? <==> client.metadata(workingDir).Done? && client.metadata(workingDir).value.contents.Some?)
    ensures args == [] && r.Some? ==>
              var entries := client.metadata(workingDir).value.contents.value;
              |r.value| == |entries| && forall i :: 0 <= i < |entries| ==> r.value[i] == Basename(entries[i])
  {
    if args != [] then Some(["Usage: ls"])
    else
      match client.metadata(workingDir)
      case Failed(_) => None
      case Done(m) =>
        match m.contents
        case None => None
        case Some(entries) => Some(seq(|entries|, i requires 0 <= i < |entries| => Basename(entries[i])))
  }

  /** `Commands.mkdir(client, state, args)` (commands.rb:50-61): exactly one
      argument, whose resolved path is created; a Dropbox error is yielded. */
  function Mkdir(client: Client, workingDir: string, args: seq<string>): (r: Effect)
    ensures |args| != 1 ==> r == Effect(["Usage: mkdir DIRECTORY"], [])
    ensures |args| == 1 ==>
              var path := LegacyState.Resolve(workingDir, args[0]);
              && r.calls == [CreateFolder(path)]
              && (r.out == [] <==> client.createFolder(path).Done?)
              && (client.createFolder(path).Failed? ==> r.out == [client.createFolder(path).error])
  {
    if |args| == 1 then
      var path := LegacyState.Resolve(workingDir, args[0]);
      match client.createFolder(path)
      case Done(_) => Effect([], [CreateFolder(path)])
      case Failed(error) => Effect([error], [CreateFolder(path)])
    else Effect(["Usage: mkdir DIRECTORY"], [])
  }

  /** `Commands.put(client, state, args)` (commands.rb:63-81): the local
      source, read through `readLocal`, is uploaded to the basename of the
      destination resolved against the working directory; any error is
      yielded. */
  function Put(client: Client, readLocal: string -> Session.Reply<string>, workingDir: string, args: seq<string>)
    : (r: Effect)
    ensures Endpoints(args).None? ==> r == Effect(["Usage: put FILE [DESTINATION]"], [])
    ensures Endpoints(args).Some? ==>
              var to := LegacyState.Resolve(workingDir, Basename(args[|args| - 1]));
              match readLocal(args[0])
              case Failed(error) => r == Effect([error], [])
              case Done(data) =>
                && r.calls == [PutFile(to, data)]
                && (r.out == [] <==> client.putFile(to, data).Done?)
                && (client.putFile(to, data).Failed? ==> r.out == [client.putFile(to, data).error])
  {
    match Endpoints(args)
    case None => Effect(["Usage: put FILE [DESTINATION]"], [])
    case Some((from, dest)) =>
      var to := LegacyState.Resolve(workingDir, Basename(dest));
      match readLocal(from)
      case Failed(error) => Effect([error], [])
      case Done(data) =>
        match client.putFile(to, data)
        case Done(_) => Effect([], [PutFile(to, data)])
        case Failed(error) => Effect([error], [PutFile(to, data)])
  }

  /** The names `exec` accepts: the singleton methods of `Commands` other
      than `exec` and `resolve_path` (commands.rb:101-103). */
  const Names: set<string> := {"cd", "get", "ls", "mkdir", "put", "shell"}

  /** What `exec` does with a line. */
  datatype Action =
    | Shell(command: string)
    | Idle
    | Raise
    | Run(name: string, args: seq<string>)
    | Unrecognized(line: string)

  /** `Commands.exec(input, client, state)` (commands.rb:94-111). A line of
      only whitespace has no first token, and `nil.to_sym` raises; `shell`
      takes one argument but is sent three, and raises too. */
  function Dispatch(input: string): (r: Action)
    ensures r.Shell? <==> StartsWith(input, "!")
    ensures r.Shell? ==> input == "!" + r.command
    ensures r.Idle? <==> input == []
    ensures r.Run? ==> r.name in Names - {"shell"} && SplitWs(input) == [r.name] + r.args
    ensures r.Unrecognized? ==>
              && SplitWs(input) != [] && SplitWs(input)[0] !in Names
              && r.line == "Unrecognized command: " + SplitWs(input)[0]
  {
    if StartsWith(input, "!") then
      assert input == input[..1] + input[1..];
      Shell(input[1..])
    else if input == [] then Idle
    else
      var tokens := SplitWs(input);
      if tokens == [] || tokens[0] == "shell" then Raise
      else if tokens[0] in Names then Run(tokens[0], tokens[1..])
      else Unrecognized("Unrecognized command: " + tokens[0])
  }

  /** `send(cmd, client, state, args)` for the commands that do not assign
      `working_dir`; `None` is an exception escaping the command. */
  function Send(client: Client, readLocal: string -> Session.Reply<string>, workingDir: string,
                name: string, args: seq<string>): (r: Option<Effect>)
    ensures r.None? ==> name == "ls" && Ls(client, workingDir, args).None?
    ensures name == "get" ==> r == Some(Get(client, workingDir, args))
    ensures name == "mkdir" ==> r == Some(Mkdir(client, workingDir, args))
    ensures name == "put" ==> r == Some(Put(client, readLocal, workingDir, args))
    ensures name == "ls" && Ls(client, workingDir, args).Some? ==>
              r == Some(Effect(Ls(client, workingDir, args).value, []))
  {
    if name == "get" then Some(Get(client, workingDir, args))
    else if name == "ls" then
      match Ls(client, workingDir, args)
      case None => None
      case Some(lines) => Some(Effect(lines, []))
    else if name == "mkdir" then Some(Mkdir(client, workingDir, args))
    else Some(Put(client, readLocal, workingDir, args))
  }

  /** `Commands.exec`: dispatch, then the command with its yielded lines
      printed; `None` is an exception escaping `exec`. */
  method Exec(client: Client, readLocal: string -> Session.Reply<string>, state: State, input: string)
    returns (r: Option<Effect>)
    modifies state
    ensures Dispatch(input).Shell? ==> r == Some(Effect([], [RunShell(Dispatch(input).command)]))
    ensures Dispatch(input).Idle? ==> r == Some(Effect([], []))
    ensures Dispatch(input).Raise? ==> r.None?
    ensures Dispatch(input).Unrecognized? ==> r == Some(Effect([Dispatch(input).line], []))
    ensures Dispatch(input).Run? && Dispatch(input).name == "cd" ==>
              && r == Some(Effect(CdSpec(client, old(state.workingDir), Dispatch(input).args).1, []))
              && state.workingDir == CdSpec(client, old(state.workingDir), Dispatch(input).args).0
    ensures Dispatch(input).Run? && Dispatch(input).name != "cd" ==>
              r == Send(client, readLocal, old(state.workingDir), Dispatch(input).name, Dispatch(input).args)
    ensures !(Dispatch(input).Run? && Dispatch(input).name == "cd") ==> state.workingDir == old(state.workingDir)
  {
    match Dispatch(input)
    case Shell(command) =>
      r := Some(Effect([], [RunShell(command)]));
    case Idle =>
      r := Some(Effect([], []));
    case Raise =>
      r := None;
    case Unrecognized(line) =>
      r := Some(Effect([line], []));
    case Run(name, args) =>
      if name == "cd" {
        var out := Cd(client, state, args);
        r := Some(Effect(out, []));
      } else {
        r := Send(client, readLocal, state.workingDir, name, args);
      }
  }
}

/** What the legacy commands promise about arguments, destinations and dispatch. */
module LegacyCommandsProperties {
  import opened Wrappers
  import opened Strings
  import opened LegacyCommands
  import LegacyState
  import LegacyStateProperties
  import SessionProperties
  import Session
  import opened Rewrite

  predicate NoSlash(t: string) {
    forall i :: 0 <= i < |t| ==> t[i] != '/'
  }

  /** A name without `/` is its own basename. */
  lemma BasenameOfName(t: string)
    requires t != [] && NoSlash(t)
    ensures Basename(t) == t
  {
    assert StripSlashes(t) == t;
  }

  /** The basename of `d/t` is `t`, whatever `d` is. */
  lemma BasenameOfChild(d: string, t: string)
    requires t != [] && NoSlash(t)
    ensures Basename(d + "/" + t) == t
  {
    var x := d + "/" + t;
    assert x[|x| - 1] == t[|t| - 1];
    assert StripSlashes(x) == x;
    assert x[|d|] == '/';
    assert forall j :: |d| < j < |x| ==> x[j] == t[j - |d| - 1];
    var k := LastIndex(x, '/');
    assert k.Some?;
    assert k.value == |d|;
    assert x[|d| + 1..] == t;
  }

  /** With one relative argument, `get` writes to the source's own basename. */
  lemma GetOneArgument(c: Client, wd: string, f: string)
    requires !StartsWith(f, "/")
    ensures Get(c, wd, [f]) == Get(c, wd, [f, f])
  {
  }

  /** With one absolute argument, `get` writes to the basename of the source
      as `resolve_path` left it. */
  lemma GetOneAbsolute(c: Client, wd: string, f: string)
    requires StartsWith(f, "/")
    ensures Get(c, wd, [f]) == Get(c, wd, [f, ResolvedInPlace(f)])
  {
  }

  /** `/a/g/..` holds no `//`. */
  lemma DotDotNoDoubleSlash(a: string, g: string)
    requires SessionProperties.Segment(a) && SessionProperties.Segment(g)
    ensures NoDoubleSlash("/" + a + "/" + g + "/..")
  {
    var pa := "/" + a;
    var pg := pa + "/" + g;
    var f := "/" + a + "/" + g + "/..";
    SessionProperties.SegmentPath([], a);
    assert [] + "/" + a == pa;
    SessionProperties.SegmentPath(pa, g);
    assert forall i :: 0 <= i < |pg| ==> f[i] == pg[i];
    assert forall i :: |pg| <= i < |f| ==> f[i] == "/.."[i - |pg|];
  }

  /** `/a/g/..` is rewritten in place to `/a`. */
  lemma AbsoluteDotDot(a: string, g: string)
    requires SessionProperties.Segment(a) && SessionProperties.Segment(g)
    ensures ResolvedInPlace("/" + a + "/" + g + "/..") == "/" + a
  {
    var pa := "/" + a;
    var f := "/" + a + "/" + g + "/..";
    DotDotNoDoubleSlash(a, g);
    assert GsubDoubleSlash(f) == f;
    assert f == pa + "/" + g + "/.." + "";
    SessionProperties.RemovePair(pa, g, "");
    assert pa + "" == pa;
    SessionProperties.NoDotDotPair(pa);
    assert RemoveDotDots(f) == pa;
    assert !EndsWith(pa, "/");
  }

  /** The basename of `/a` is `a`, and that of `/a/g/..` is `..`. */
  lemma DotDotBasenames(a: string, g: string)
    requires SessionProperties.Segment(a) && SessionProperties.Segment(g)
    ensures Basename("/" + a) == a
    ensures Basename("/" + a + "/" + g + "/..") == ".."
  {
    BasenameOfChild([], a);
    assert [] + "/" + a == "/" + a;
    assert "/" + a + "/" + g + "/.." == ("/" + a + "/" + g) + "/" + "..";
    BasenameOfChild("/" + a + "/" + g, "..");
  }

  /** The two differ: `get /a/g/..` fetches `/a` and writes it to `a`, where
      `get /a/g/.. /a/g/..` fetches the same file and writes it to `..`. */
  lemma GetOneAbsoluteAliased(c: Client, wd: string, a: string, g: string, data: string)
    requires SessionProperties.Segment(a) && SessionProperties.Segment(g)
    requires c.getFile("/" + a) == Session.Done(data)
    ensures Get(c, wd, ["/" + a + "/" + g + "/.."]).calls == [GetFile("/" + a), WriteLocal(a, data)]
    ensures Get(c, wd, ["/" + a + "/" + g + "/..", "/" + a + "/" + g + "/.."]).calls ==
              [GetFile("/" + a), WriteLocal("..", data)]
  {
    var f := "/" + a + "/" + g + "/..";
    AbsoluteDotDot(a, g);
    DotDotBasenames(a, g);
    assert StartsWith(f, "/");
    assert LegacyState.Resolve(wd, f) == "/" + a;
  }

  /** The downloaded file lands in the local directory under the basename
      of the destination, whatever directory the destination names
      (commands.rb:32). */
  lemma GetWritesBasename(c: Client, wd: string, f: string, d: string, t: string, data: string)
    requires t != [] && NoSlash(t)
    requires c.getFile(LegacyState.Resolve(wd, f)) == Session.Done(data)
    ensures Get(c, wd, [f, d + "/" + t]).calls ==
              [GetFile(LegacyState.Resolve(wd, f)), WriteLocal(t, data)]
    ensures Get(c, wd, [f, d + "/" + t]).out == []
  {
    BasenameOfChild(d, t);
  }

  /** `put` uploads under the working directory, to the destination's
      basename: a directory in the destination is dropped (commands.rb:72). */
  lemma PutDropsDirectory(c: Client, readLocal: string -> Session.Reply<string>, wd: string,
                          f: string, d: string, t: string)
    requires t != [] && NoSlash(t)
    ensures Put(c, readLocal, wd, [f, d + "/" + t]) == Put(c, readLocal, wd, [f, t])
  {
    BasenameOfChild(d, t);
    BasenameOfName(t);
  }

  /** A file put from `/a` under the name `t` goes to `/a/t`. */
  lemma PutUnderWorkingDir(c: Client, readLocal: string -> Session.Reply<string>,
                           a: string, f: string, t: string, data: string)
    requires SessionProperties.Segment(a) && SessionProperties.Segment(t)
    requires readLocal(f) == Session.Done(data)
    ensures Put(c, readLocal, "/" + a, [f, t]).calls == [PutFile("/" + a + "/" + t, data)]
  {
    BasenameOfName(t);
    LegacyStateProperties.ResolveUnqualified(a, t);
  }

  /** A blank line holds no words. */
  lemma {:induction false} SplitBlank(s: string)
    requires forall i :: 0 <= i < |s| ==> IsSpace(s[i])
    ensures SplitWs(s) == []
    decreases |s|
  {
    if s != [] {
      assert forall i :: 0 <= i < |s[1..]| ==> s[1..][i] == s[i + 1];
      SplitBlank(s[1..]);
    }
  }

  /** A line of only whitespace makes `exec` raise: it has no first token
      to turn into a symbol (commands.rb:98-99). */
  lemma BlankRaises(input: string)
    requires input != [] && forall i :: 0 <= i < |input| ==> IsSpace(input[i])
    ensures Dispatch(input) == Raise
  {
    SplitBlank(input);
    assert input[..1][0] == input[0];
  }

  /** `shell` is listed among the commands but takes one argument, so
      sending it three raises. */
  lemma ShellRaises(rest: string)
    ensures Dispatch("shell" + " " + rest) == Raise
  {
    assert NoSpace("shell");
    SplitWsCons("shell", rest);
    assert ("shell" + " " + rest)[..1] == "s";
  }

  /** An unknown word is reported, and nothing runs (commands.rb:107-108). */
  lemma UnknownWord(w: string)
    requires w != [] && NoSpace(w) && w !in Names && w[0] != '!'
    ensures Dispatch(w) == Unrecognized("Unrecognized command: " + w)
  {
    SplitWsCons(w, "");
    assert w[..1][0] == w[0];
  }

  /** Every command name is one word that does not start with `!`. */
  lemma NamesAreWords(name: string)
    requires name in Names
    ensures name != [] && NoSpace(name) && name[0] != '!'
  {
  }

  /** A line whose first word names a command runs it with the other words. */
  lemma RunsFirstWord(line: string)
    requires line != [] && line[0] != '!'
    requires SplitWs(line) != [] && SplitWs(line)[0] in Names - {"shell"}
    ensures Dispatch(line) == Run(SplitWs(line)[0], SplitWs(line)[1..])
  {
    assert line[..1][0] == line[0];
  }

  /** A known name and one word run that command with that one argument. */
  lemma KnownCommand(name: string, arg: string)
    requires name in Names - {"shell"} && arg != [] && NoSpace(arg)
    ensures Dispatch(name + " " + arg) == Run(name, [arg])
  {
    NamesAreWords(name);
    var line := name + " " + arg;
    assert line[0] == name[0];
    SplitWsCons(name, arg);
    SplitWsCons(arg, "");
    assert SplitWs(line) == [name, arg];
    RunsFirstWord(line);
    assert SplitWs(line)[1..] == [arg];
  }

  /** `!cmd` hands `cmd` to the shell. */
  lemma BangGoesToShell(cmd: string)
    ensures Dispatch("!" + cmd) == Shell(cmd)
  {
    assert ("!" + cmd)[..1] == "!";
    assert ("!" + cmd)[1..] == cmd;
  }
}
