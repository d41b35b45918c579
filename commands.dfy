/**
 * The command framework of lib/droxi/commands.rb: a command's arity and
 * argument types are read off its man-page style usage synopsis, input lines
 * are split by a tokenizer that honours backslash-escaped spaces, and the
 * effects of `cd`, `exit`, `forget`, `mkdir`, `rm`, `cp`/`mv` and the
 * argument handling of `ls` on the session state.
 *
 * A command procedure's `output` block becomes the sequence of lines it
 * would have yielded, in order. A Dropbox client call that raises
 * DropboxError is a `Failed(message)` reply, and `try_and_handle` outputs
 * that message.
 */
module Commands {
  import opened Wrappers
  import opened Strings
  import opened Hashes
  import opened Caches
  import opened Session

  // ---------------------------------------------------------------------
  // Commands and their usage synopses (lib/droxi/commands.rb:14-76)
  // ---------------------------------------------------------------------

  /** A client command: its usage synopsis and its description. */
  datatype Command = Command(usage: string, description: string)

  /** `Command.new(usage, description, procedure)`: runs of spaces in the
      description are squeezed to one. */
  function NewCommand(usage: string, description: string): (c: Command)
    ensures c.usage == usage
    ensures forall i :: 0 <= i < |c.description| - 1 ==>
              !(c.description[i] == ' ' && c.description[i + 1] == ' ')
    ensures |c.description| <= |description|
  {
    Command(usage, Squeeze(description))
  }

  /** `usage.split.drop(1)`: the argument tokens of a synopsis. */
  function ArgTokens(usage: string): seq<string> {
    var words := SplitWs(usage);
    if words == [] then [] else words[1..]
  }

  /** How many tokens do not start with `[`, that is, are not optional. */
  function Required(args: seq<string>): (r: nat)
    ensures r <= |args|
  {
    if args == [] then 0
    else (if StartsWith(args[0], "[") then 0 else 1) + Required(args[1..])
  }

  /** Some token ends in an ellipsis, so the argument count has no upper bound. */
  predicate Variadic(args: seq<string>) {
    exists i :: 0 <= i < |args| && EndsWith(args[i], "...")
  }

  /** `num_args_ok?(n)` for a command with this usage. */
  predicate NumArgsOk(usage: string, n: nat)
    ensures ArgTokens(usage) == [] ==> (NumArgsOk(usage, n) <==> n == 0)
    ensures ArgTokens(usage) != [] && Variadic(ArgTokens(usage)) ==>
              (NumArgsOk(usage, n) <==> n >= Required(ArgTokens(usage)))
    ensures ArgTokens(usage) != [] && !Variadic(ArgTokens(usage)) ==>
              (NumArgsOk(usage, n) <==> Required(ArgTokens(usage)) <= n <= |ArgTokens(usage)|)
  {
    var args := ArgTokens(usage);
    var least := Required(args);
    var most := if args == [] then 0 else if Variadic(args) then n else |args|;
    least <= n <= most
  }

  /** What `Command#exec` does before running the procedure. */
  datatype Checked = Proceed | UsageError(usage: string)

  /** `exec(client, state, *args)`: the procedure runs only when the number
      of arguments suits the usage; otherwise UsageError carries the usage. */
  function Exec(c: Command, args: seq<string>): (r: Checked)
    ensures r == Proceed <==> NumArgsOk(c.usage, |args|)
    ensures r != Proceed ==> r == UsageError(c.usage)
  {
    if NumArgsOk(c.usage, |args|) then Proceed else UsageError(c.usage)
  }

  /** The usage tokens that hold no `-` (the option `[-l]` of ls has one). */
  function Typed(args: seq<string>): (r: seq<string>)
    ensures |r| <= |args|
    ensures forall t :: t in r <==> t in args && !Contains(t, '-')
  {
    if args == [] then []
    else if Contains(args[0], '-') then Typed(args[1..])
    else [args[0]] + Typed(args[1..])
  }

  /** `type_of_arg(index)`: the type of the argument at `index`, where an
      index past the end gets the type of the last argument, written
      without brackets and ellipsis. `None` when every token holds a `-`. */
  function TypeOfArg(usage: string, index: nat): (r: Option<string>)
    ensures r.None? <==> forall t :: t in ArgTokens(usage) ==> Contains(t, '-')
    ensures r.Some? ==> forall i :: 0 <= i < |r.value| ==> r.value[i] !in {'[', ']', '.'}
    ensures r.Some? ==> exists t :: t in ArgTokens(usage) && !Contains(t, '-') &&
                                    r.value == Delete(t, {'[', ']', '.'})
    ensures var a := Typed(ArgTokens(usage));
            index < |a| ==> r == Some(Delete(a[index], {'[', ']', '.'}))
    ensures var a := Typed(ArgTokens(usage));
            a != [] && index >= |a| - 1 ==> r == Some(Delete(a[|a| - 1], {'[', ']', '.'}))
  {
    var args := Typed(ArgTokens(usage));
    var j := if index < |args| then index else |args| - 1;
    assert args != [] ==> args[j] in args;
    ArgTypeAt(args, index)
  }

  /** `index = [index, args.size - 1].min` and `args[index].tr('[].', '')`:
      the token at `index`, or the last one for any index past it, with
      brackets and dots deleted; `nil` when there is no token. */
  function ArgTypeAt(args: seq<string>, index: nat): (r: Option<string>)
    ensures r.None? <==> args == []
    ensures index < |args| ==> r == Some(Delete(args[index], {'[', ']', '.'}))
    ensures args != [] && index >= |args| - 1 ==> r == Some(Delete(args[|args| - 1], {'[', ']', '.'}))
  {
    if args == [] then None
    else
      var i := if index < |args| - 1 then index else |args| - 1;
      Some(Delete(args[i], {'[', ']', '.'}))
  }

  // ---------------------------------------------------------------------
  // The command table (lib/droxi/commands.rb:79-358)
  // ---------------------------------------------------------------------

  /** `NAMES`, in the order the commands are defined. */
  const Names: seq<string> :=
    ["cd", "cp", "exit", "forget", "get", "help", "lcd", "ls", "media", "mkdir", "mv", "put", "rm", "share"]

  /** The usage synopsis of each named command. */
  function UsageOf(name: string): (r: Option<string>)
    ensures r.Some? <==> name in Names
  {
    if name == "cd" then Some("cd [REMOTE_DIR]")
    else if name == "cp" then Some("cp REMOTE_FILE... REMOTE_FILE")
    else if name == "exit" then Some("exit")
    else if name == "forget" then Some("forget [REMOTE_DIR]...")
    else if name == "get" then Some("get REMOTE_FILE...")
    else if name == "help" then Some("help [COMMAND]")
    else if name == "lcd" then Some("lcd [LOCAL_DIR]")
    else if name == "ls" then Some("ls [-l] [REMOTE_FILE]...")
    else if name == "media" then Some("media REMOTE_FILE...")
    else if name == "mkdir" then Some("mkdir REMOTE_DIR...")
    else if name == "mv" then Some("mv REMOTE_FILE... REMOTE_FILE")
    else if name == "put" then Some("put LOCAL_FILE [REMOTE_FILE]")
    else if name == "rm" then Some("rm REMOTE_FILE...")
    else if name == "share" then Some("share REMOTE_FILE...")
    else None
  }

  /** What `try_command` settles: the procedure of a command runs with the
      arguments, or one line is printed instead. */
  datatype Outcome = Run(name: string, args: seq<string>) | Say(line: string)

  /** `try_command(name, args)`: a known name runs when its arity fits and
      prints `Usage: ...` when not; an unknown name prints that no such
      command exists. */
  function TryCommand(name: string, args: seq<string>): (r: Outcome)
    ensures r.Run? <==> name in Names && Exec(Command(UsageOf(name).value, ""), args) == Proceed
    ensures r.Run? ==> r.name == name && r.args == args
    ensures name in Names && !r.Run? ==> r.line == "Usage: " + UsageOf(name).value
    ensures name !in Names ==> r.line == "droxi: " + name + ": command not found"
  {
    match UsageOf(name)
    case None => Say("droxi: " + name + ": command not found")
    case Some(usage) =>
      match Exec(Command(usage, ""), args)
      case Proceed => Run(name, args)
      case UsageError(u) => Say("Usage: " + u)
  }

  // ---------------------------------------------------------------------
  // Tokenizing and dispatching a line (lib/droxi/commands.rb:361-406)
  // ---------------------------------------------------------------------

  /** `String#chop` of a string that ends in a backslash. */
  function Chop(s: string): (r: string)
    requires s != []
    ensures r + [s[|s| - 1]] == s
  {
    s[..|s| - 1]
  }

  /** One step of the reduce in `tokenize`: a token after one that ends in a
      backslash continues it, the backslash becoming a single space. */
  function Merge(list: seq<string>, token: string): (r: seq<string>)
    ensures list != [] && EndsWith(list[|list| - 1], "\\") ==>
              && |r| == |list| && r[..|list| - 1] == list[..|list| - 1]
              && r[|list| - 1] == Chop(list[|list| - 1]) + " " + token
    ensures !(list != [] && EndsWith(list[|list| - 1], "\\")) ==> r == list + [token]
  {
    if list != [] && EndsWith(list[|list| - 1], "\\") then
      list[..|list| - 1] + [Chop(list[|list| - 1]) + " " + token]
    else list + [token]
  }

  /** `tokens.reduce(list) { ... }`. */
  function Fold(list: seq<string>, tokens: seq<string>): (r: seq<string>)
    decreases |tokens|
    ensures |list| <= |r| <= |list| + |tokens|
    ensures list != [] || tokens != [] ==> r != []
  {
    if tokens == [] then list else Fold(Merge(list, tokens[0]), tokens[1..])
  }

  /** `tokenize(string)`: whitespace-separated words, where a word ending in
      a backslash is joined to the next by one space. */
  function Tokenize(s: string): (r: seq<string>)
    ensures |r| <= |SplitWs(s)|
    ensures r == [] <==> SplitWs(s) == []
  {
    Fold([], SplitWs(s))
  }

  /** What `Commands.exec(input)` does with a line. */
  datatype Action = Shell(command: string) | Idle | Try(name: string, args: seq<string>)

  /** `Commands.exec(input)`: `!` hands the rest of the line to the system
      shell, an empty line does nothing, anything else is tokenized into a
      command name and its arguments; a line of only whitespace gives the
      name `nil`, printed as the empty string. */
  function Parse(input: string): (r: Action)
    ensures r.Shell? <==> StartsWith(input, "!")
    ensures r.Shell? ==> input == "!" + r.command
    ensures r.Idle? <==> input == []
    ensures r.Try? ==> var ts := Tokenize(input);
              if ts == [] then r.name == "" && r.args == [] else [r.name] + r.args == ts
  {
    if StartsWith(input, "!") then Shell(input[1..])
    else if input == [] then Idle
    else
      var ts := Tokenize(input);
      if ts == [] then Try("", []) else Try(ts[0], ts[1..])
  }

  // ---------------------------------------------------------------------
  // cd and exit (lib/droxi/commands.rb:85-98, 117-119)
  // ---------------------------------------------------------------------

  /** `cd`: no argument goes to the root, `-` goes back to the previous
      working directory, and anything else is entered when it is a
      directory; otherwise `Not a directory` is output and nothing moves. */
  method Cd(state: State, args: seq<string>) returns (out: seq<string>)
    requires state.Valid()
    modifies state, state.settings, state.cache
    ensures state.Valid()
    ensures state.localOldpwd == old(state.localOldpwd) && state.exitRequested == old(state.exitRequested)
    ensures state.debugEnabled == old(state.debugEnabled)
    ensures args == [] ==>
              && state.pwd == "/" && state.oldpwd == old(state.pwd) && out == []
              && state.cache.table == old(state.cache.table)
              && state.settings.store.values == old(state.settings.store.values)["oldpwd" := old(state.pwd)]
    ensures args != [] && args[0] == "-" ==>
              && state.pwd == old(state.oldpwd) && state.oldpwd == old(state.pwd) && out == []
              && state.cache.table == old(state.cache.table)
              && state.settings.store.values == old(state.settings.store.values)["oldpwd" := old(state.pwd)]
    ensures args != [] && args[0] != "-" ==>
              var path := Resolve(old(state.pwd), args[0]);
              var d := DirectorySpec(old(state.cache.table), state.client, old(state.pwd), path);
              && state.cache.table == d.0
              && (d.1 ==>
                    && state.pwd == path && state.oldpwd == old(state.pwd) && out == []
                    && state.settings.store.values == old(state.settings.store.values)["oldpwd" := old(state.pwd)])
              && (!d.1 ==>
                    && state.pwd == old(state.pwd) && state.oldpwd == old(state.oldpwd)
                    && out == ["Not a directory"]
                    && state.settings.store.values == old(state.settings.store.values))
    ensures var moved := args == [] || args[0] == "-" ||
                         DirectorySpec(old(state.cache.table), state.client, old(state.pwd),
                                       Resolve(old(state.pwd), args[0])).1;
            && (moved && old(state.settings.Get("oldpwd")) != Some(old(state.pwd)) ==>
                  state.settings.store == Store(old(state.settings.store), "oldpwd", old(state.pwd))
                  && state.settings.dirty)
            && (moved && old(state.settings.Get("oldpwd")) == Some(old(state.pwd)) ==>
                  state.settings.store == old(state.settings.store)
                  && state.settings.dirty == old(state.settings.dirty))
            && (!moved ==>
                  state.settings.store == old(state.settings.store)
                  && state.settings.dirty == old(state.settings.dirty))
  {
    out := [];
    if args == [] {
      state.SetPwd("/");
    } else if args[0] == "-" {
      state.SetPwd(state.oldpwd);
    } else {
      var path := state.ResolvePath(args[0]);
      var isDir := state.IsDirectory(path);
      if isDir {
        state.SetPwd(path);
      } else {
        out := ["Not a directory"];
      }
    }
  }

  /** `exit`: the session is asked to end; nothing else changes. */
  method Exit(state: State)
    requires state.Valid()
    modifies state
    ensures state.Valid() && state.exitRequested
    ensures state.pwd == old(state.pwd) && state.oldpwd == old(state.oldpwd)
    ensures state.localOldpwd == old(state.localOldpwd) && state.debugEnabled == old(state.debugEnabled)
  {
    state.exitRequested := true;
  }

  // ---------------------------------------------------------------------
  // forget (lib/droxi/commands.rb:128-136)
  // ---------------------------------------------------------------------

  /** `args.each { |arg| state.forget_contents(arg) }`: the cache afterwards
      and the lines yielded. */
  function ForgetAll(t: Table, pwd: string, args: seq<string>): (r: (Table, seq<string>))
    requires ValidTable(t)
    decreases |args|
    ensures ValidTable(r.0)
    ensures |r.1| <= |args|
    ensures ForgetLines(r.1, args)
  {
    if args == [] then (t, [])
    else
      var one := ForgetSpec(t, pwd, args[0]);
      var more := ForgetAll(one.0, pwd, args[1..]);
      ForgetLinesCons(args, one.1, more.1);
      (more.0, one.1 + more.1)
  }

  /** Every line is the "nothing to forget" line of one of `args`. */
  predicate ForgetLines(lines: seq<string>, args: seq<string>) {
    forall l :: l in lines ==> exists a :: a in args && l == "forget: " + a + ": nothing to forget"
  }

  lemma ForgetLinesCons(args: seq<string>, x: seq<string>, y: seq<string>)
    requires args != [] && (x == [] || x == ["forget: " + args[0] + ": nothing to forget"])
    requires ForgetLines(y, args[1..])
    ensures ForgetLines(x + y, args)
  {
    assert forall a :: a in args[1..] ==> a in args;
    assert args[0] in args;
  }

  /** What the loop of `forget` keeps: the lines so far followed by those of
      the remaining arguments are all the lines, and the cache ends the same. */
  ghost predicate ForgotSoFar(t: Table, pwd: string, rest: seq<string>, done: seq<string>,
                              goal: (Table, seq<string>))
    requires ValidTable(t)
  {
    var x := ForgetAll(t, pwd, rest);
    x.0 == goal.0 && done + x.1 == goal.1
  }

  lemma ForgetStep(t: Table, pwd: string, rest: seq<string>, done: seq<string>,
                   goal: (Table, seq<string>), t1: Table, lines: seq<string>)
    requires ValidTable(t) && ForgotSoFar(t, pwd, rest, done, goal) && rest != []
    requires (t1, lines) == ForgetSpec(t, pwd, rest[0])
    ensures ValidTable(t1) && ForgotSoFar(t1, pwd, rest[1..], done + lines, goal)
  {
    var x := ForgetAll(t1, pwd, rest[1..]);
    assert done + lines + x.1 == done + (lines + x.1);
  }

  lemma ForgetStart(t: Table, pwd: string, args: seq<string>)
    requires ValidTable(t)
    ensures ForgotSoFar(t, pwd, args[0..], [], ForgetAll(t, pwd, args))
  {
    assert args[0..] == args;
    assert [] + ForgetAll(t, pwd, args).1 == ForgetAll(t, pwd, args).1;
  }

  lemma ForgetEnd(t: Table, pwd: string, args: seq<string>, done: seq<string>, goal: (Table, seq<string>))
    requires ValidTable(t) && ForgotSoFar(t, pwd, args[|args|..], done, goal)
    ensures (t, done) == goal
  {
    assert args[|args|..] == [];
    assert done + [] == done;
  }

  /** `forget`: with no argument the whole cache is cleared, otherwise the
      cached contents of each named directory are forgotten in turn. */
  method Forget(state: State, args: seq<string>) returns (out: seq<string>)
    requires state.Valid()
    modifies state.cache
    ensures state.Valid()
    ensures args == [] ==> state.cache.table == Empty() && out == []
    ensures args != [] ==> (state.cache.table, out) == ForgetAll(old(state.cache.table), state.pwd, args)
  {
    out := [];
    if args == [] {
      state.cache.Clear();
    } else {
      ghost var goal := ForgetAll(state.cache.table, state.pwd, args);
      var i := 0;
      ForgetStart(state.cache.table, state.pwd, args);
      while i < |args|
        invariant 0 <= i <= |args|
        invariant state.Valid()
        invariant ForgotSoFar(state.cache.table, state.pwd, args[i..], out, goal)
      {
        DropOne(args, i);
        ghost var t := state.cache.table;
        var lines := state.ForgetContents(args[i]);
        ForgetStep(t, state.pwd, args[i..], out, goal, state.cache.table, lines);
        out := out + lines;
        i := i + 1;
      }
      ForgetEnd(state.cache.table, state.pwd, args, out, goal);
    }
  }

  // ---------------------------------------------------------------------
  // mkdir (lib/droxi/commands.rb:268-275)
  // ---------------------------------------------------------------------

  /** `mkdir`: each resolved path whose folder the client creates is stored
      in the cache under that path as given (`Hash#[]=`, no linking); a
      failure outputs its message. */
  function MkdirAll(t: Table, c: Client, pwd: string, args: seq<string>): (r: (Table, seq<string>))
    decreases |args|
    ensures ValidTable(t) ==> ValidTable(r.0)
  {
    if args == [] then (t, [])
    else
      var one := MkdirOne(t, c, Resolve(pwd, args[0]));
      var more := MkdirAll(one.0, c, pwd, args[1..]);
      (more.0, one.1 + more.1)
  }

  /** The cache and lines of `mkdir` for one argument. */
  function MkdirOne(t: Table, c: Client, path: string): (r: (Table, seq<string>))
    ensures ValidTable(t) ==> ValidTable(r.0)
  {
    match c.createFolder(path)
    case Done(info) => (Store(t, path, Entry(info, None)), [])
    case Failed(e) => (t, [e])
  }

  ghost predicate MadeSoFar(t: Table, c: Client, pwd: string, rest: seq<string>, done: seq<string>,
                            goal: (Table, seq<string>))
  {
    var x := MkdirAll(t, c, pwd, rest);
    x.0 == goal.0 && done + x.1 == goal.1
  }

  lemma MkdirStep(t: Table, c: Client, pwd: string, rest: seq<string>, done: seq<string>,
                  goal: (Table, seq<string>), t1: Table, lines: seq<string>)
    requires MadeSoFar(t, c, pwd, rest, done, goal) && rest != []
    requires (t1, lines) == MkdirOne(t, c, Resolve(pwd, rest[0]))
    ensures MadeSoFar(t1, c, pwd, rest[1..], done + lines, goal)
  {
    var x := MkdirAll(t1, c, pwd, rest[1..]);
    assert done + lines + x.1 == done + (lines + x.1);
  }

  /** The block of `mkdir` for one resolved path. */
  method MakeFolder(state: State, path: string) returns (lines: seq<string>)
    requires state.Valid()
    modifies state.cache
    ensures state.Valid()
    ensures (state.cache.table, lines) == MkdirOne(old(state.cache.table), state.client, path)
  {
    lines := [];
    var reply := state.client.createFolder(path);
    if reply.Done? {
      state.cache.Put(path, Entry(reply.value, None));
    } else {
      lines := [reply.error];
    }
  }

  method Mkdir(state: State, args: seq<string>) returns (out: seq<string>)
    requires state.Valid()
    modifies state.cache
    ensures state.Valid()
    ensures (state.cache.table, out) == MkdirAll(old(state.cache.table), state.client, state.pwd, args)
  {
    out := [];
    ghost var goal := MkdirAll(state.cache.table, state.client, state.pwd, args);
    var i := 0;
    assert args[i..] == args;
    assert [] + goal.1 == goal.1;
    while i < |args|
      invariant 0 <= i <= |args|
      invariant state.Valid()
      invariant MadeSoFar(state.cache.table, state.client, state.pwd, args[i..], out, goal)
    {
      DropOne(args, i);
      ghost var t := state.cache.table;
      var path := state.ResolvePath(args[i]);
      var lines := MakeFolder(state, path);
      MkdirStep(t, state.client, state.pwd, args[i..], out, goal, state.cache.table, lines);
      out := out + lines;
      i := i + 1;
    }
    assert args[i..] == [];
    assert out + [] == out;
  }

  // ---------------------------------------------------------------------
  // rm (lib/droxi/commands.rb:320-331)
  // ---------------------------------------------------------------------

  /** `rm` for one expanded item as written: a pattern that matched nothing
      is reported; a path is deleted by the client and then dropped from the
      cache with the plain `Hash#delete`, under the path as given. */
  function RmOneAsWritten(t: Table, c: Client, item: Expansion): (r: (Table, seq<string>))
    ensures ValidTable(t) ==> ValidTable(r.0)
  {
    match item
    case GlobError(pattern) => (t, ["rm: " + pattern + ": No such file or directory"])
    case Path(p) =>
      match c.fileDelete(p)
      case Done(_) => (Hashes.Remove(t, p), [])
      case Failed(e) => (t, [e])
  }

  /** `rm` for one expanded item, with the cache update `Cache#remove`
      performs: the lower-cased path, everything listed under it, and its
      link in the parent's 'contents' go. */
  function RmOne(t: Table, c: Client, item: Expansion): (r: (Table, seq<string>))
    requires ValidTable(t)
    ensures ValidTable(r.0)
  {
    match item
    case GlobError(pattern) => (t, ["rm: " + pattern + ": No such file or directory"])
    case Path(p) =>
      match c.fileDelete(p)
      case Done(_) => (RemoveSpec(t, p), [])
      case Failed(e) => (t, [e])
  }

  /** `rm` over the expanded items, in order. */
  function RmAll(t: Table, c: Client, items: seq<Expansion>): (r: (Table, seq<string>))
    requires ValidTable(t)
    decreases |items|
    ensures ValidTable(r.0)
  {
    if items == [] then (t, [])
    else
      var one := RmOne(t, c, items[0]);
      var more := RmAll(one.0, c, items[1..]);
      (more.0, one.1 + more.1)
  }

  ghost predicate RemovedSoFar(t: Table, c: Client, rest: seq<Expansion>, done: seq<string>,
                               goal: (Table, seq<string>))
    requires ValidTable(t)
  {
    var x := RmAll(t, c, rest);
    x.0 == goal.0 && done + x.1 == goal.1
  }

  lemma RmStep(t: Table, c: Client, rest: seq<Expansion>, done: seq<string>,
               goal: (Table, seq<string>), t1: Table, lines: seq<string>)
    requires ValidTable(t) && RemovedSoFar(t, c, rest, done, goal) && rest != []
    requires (t1, lines) == RmOne(t, c, rest[0])
    ensures RemovedSoFar(t1, c, rest[1..], done + lines, goal)
  {
    var x := RmAll(t1, c, rest[1..]);
    assert done + lines + x.1 == done + (lines + x.1);
  }

  method RmItem(state: State, item: Expansion) returns (lines: seq<string>)
    requires state.Valid()
    modifies state.cache
    ensures state.Valid()
    ensures (state.cache.table, lines) == RmOne(old(state.cache.table), state.client, item)
  {
    lines := [];
    if item.GlobError? {
      lines := ["rm: " + item.pattern + ": No such file or directory"];
    } else {
      var reply := state.client.fileDelete(item.path);
      if reply.Done? {
        state.cache.Remove(item.path);
      } else {
        lines := [reply.error];
      }
    }
  }

  method RmItems(state: State, items: seq<Expansion>) returns (out: seq<string>)
    requires state.Valid()
    modifies state.cache
    ensures state.Valid()
    ensures (state.cache.table, out) == RmAll(old(state.cache.table), state.client, items)
  {
    out := [];
    ghost var goal := RmAll(state.cache.table, state.client, items);
    var i := 0;
    assert items[i..] == items;
    assert [] + goal.1 == goal.1;
    while i < |items|
      invariant 0 <= i <= |items|
      invariant state.Valid()
      invariant RemovedSoFar(state.cache.table, state.client, items[i..], out, goal)
    {
      DropOne(items, i);
      ghost var t := state.cache.table;
      var lines := RmItem(state, items[i]);
      RmStep(t, state.client, items[i..], out, goal, state.cache.table, lines);
      out := out + lines;
      i := i + 1;
    }
    assert items[i..] == [];
    assert out + [] == out;
  }

  /** `rm`: the patterns are expanded (roots not preserved), then each item
      is removed in turn. */
  method Rm(state: State, args: seq<string>, fnmatch: (string, string) -> bool) returns (out: seq<string>)
    requires state.Valid()
    modifies state.cache
    ensures state.Valid()
    ensures var e := ExpandSpec(old(state.cache.table), state.client, state.pwd, fnmatch, args, false);
            (state.cache.table, out) == RmAll(e.0, state.client, e.1)
  {
    var items := state.ExpandPatterns(args, false, fnmatch);
    out := RmItems(state, items);
  }

  // ---------------------------------------------------------------------
  // expand, copy_move and cp_mv (lib/droxi/commands.rb:440-480)
  // ---------------------------------------------------------------------

  /** The `map`/`compact` of `expand`: the paths kept in order, and one
      line for each pattern that matched nothing. */
  function Report(cmd: string, items: seq<Expansion>): (r: (seq<string>, seq<string>))
    ensures |r.0| + |r.1| == |items|
    ensures forall p :: p in r.0 <==> Path(p) in items
    ensures forall l :: l in r.1 <==>
              exists pattern :: GlobError(pattern) in items && l == cmd + ": " + pattern + ": no such file or directory"
  {
    if items == [] then ([], [])
    else
      var more := Report(cmd, items[1..]);
      assert forall x :: x in items <==> x == items[0] || x in items[1..];
      match items[0]
      case Path(p) => ([p] + more.0, more.1)
      case GlobError(pattern) => (more.0, [cmd + ": " + pattern + ": no such file or directory"] + more.1)
  }

  /** `expand(state, paths, preserve_root, output, cmd_name)`: the patterns
      are always expanded with their roots preserved. */
  method Expand(state: State, cmd: string, paths: seq<string>, fnmatch: (string, string) -> bool)
    returns (sources: seq<string>, out: seq<string>)
    requires state.Valid()
    modifies state.cache
    ensures state.Valid()
    ensures var e := ExpandSpec(old(state.cache.table), state.client, state.pwd, fnmatch, paths, true);
            state.cache.table == e.0 && (sources, out) == Report(cmd, e.1)
  {
    var items := state.ExpandPatterns(paths, true, fnmatch);
    sources, out := Report(cmd, items).0, Report(cmd, items).1;
  }

  /** Which client call `copy_move` makes. */
  datatype Transfer = Copy | Move

  function Send(c: Client, kind: Transfer, from: string, to: string): (r: Reply<Metadata>)
  {
    if kind == Copy then c.fileCopy(from, to) else c.fileMove(from, to)
  }

  /** `cp` goes to `file_copy` and `mv` to `file_move`, with the same paths. */
  lemma SendCalls(c: Client, kind: Transfer, from: string, to: string)
    ensures kind == Copy ==> Send(c, kind, from, to) == c.fileCopy(from, to)
    ensures kind == Move ==> Send(c, kind, from, to) == c.fileMove(from, to)
  {
  }

  /** `copy_move(method, source, dest)` as written: both paths are resolved; when the
      client call succeeds, a move first drops the source path from the
      cache (`Hash#delete`), the returned record is added, and
      `source -> dest` is output; a failure outputs its message. */
  function CopyMoveAsWritten(t: Table, c: Client, pwd: string, kind: Transfer, source: string, dest: string)
    : (r: (Table, seq<string>))
    ensures ValidTable(t) && ClientOk(c) ==> ValidTable(r.0)
  {
    var from := Resolve(pwd, source);
    var to := Resolve(pwd, dest);
    match Send(c, kind, from, to)
    case Failed(e) => (t, [e])
    case Done(m) =>
      var t1 := if kind == Move then Hashes.Remove(t, from) else t;
      (AddSpec(t1, m), [source + " -> " + dest])
  }

  /** `copy_move` with the source of a move dropped as `Cache#remove` does
      it, so that no listing still holds the moved record. */
  function CopyMoveSpec(t: Table, c: Client, pwd: string, kind: Transfer, source: string, dest: string)
    : (r: (Table, seq<string>))
    requires ValidTable(t) && ClientOk(c)
    ensures ValidTable(r.0)
  {
    var from := Resolve(pwd, source);
    var to := Resolve(pwd, dest);
    match Send(c, kind, from, to)
    case Failed(e) => (t, [e])
    case Done(m) =>
      SentWellFormed(c, kind, from, to);
      var t1 := if kind == Move then RemoveSpec(t, from) else t;
      (AddSpec(t1, m), [source + " -> " + dest])
  }

  /** What a well-behaved client copies or moves is well-formed metadata. */
  lemma SentWellFormed(c: Client, kind: Transfer, from: string, to: string)
    requires ClientOk(c) && Send(c, kind, from, to).Done?
    ensures WellFormed(Send(c, kind, from, to).value)
  {
  }

  method CopyMove(state: State, kind: Transfer, source: string, dest: string) returns (out: seq<string>)
    requires state.Valid()
    modifies state.cache
    ensures state.Valid()
    ensures (state.cache.table, out) == CopyMoveSpec(old(state.cache.table), state.client, state.pwd, kind, source, dest)
  {
    var from := state.ResolvePath(source);
    var to := state.ResolvePath(dest);
    var reply := if kind == Copy then state.client.fileCopy(from, to) else state.client.fileMove(from, to);
    if reply.Done? {
      if kind == Move {
        state.cache.Remove(from);
      }
      state.cache.Add(reply.value);
      out := [source + " -> " + dest];
    } else {
      out := [reply.error];
    }
  }

  /** The destination of `source` when several are copied into `dest`. */
  function Target(dest: string, source: string): (r: string)
  {
    Chomp(dest, "/") + "/" + Basename(source)
  }

  /** The target is the destination less one trailing `/`, then `/`, then
      the basename of the source. */
  lemma TargetShape(dest: string, source: string)
    ensures var r := Target(dest, source);
            var d := Chomp(dest, "/");
            StartsWith(r, d + "/") && EndsWith(r, Basename(source)) && |r| == |d| + 1 + |Basename(source)|
  {
    var r := Target(dest, source);
    var d := Chomp(dest, "/");
    assert r[..|d + "/"|] == d + "/";
    assert r[|r| - |Basename(source)|..] == Basename(source);
  }

  /** `sources.each { |source| copy_move(method, source, target) }`. */
  function CopyEach(t: Table, c: Client, pwd: string, kind: Transfer, sources: seq<string>, dest: string)
    : (r: (Table, seq<string>))
    requires ValidTable(t) && ClientOk(c)
    decreases |sources|
    ensures ValidTable(r.0)
  {
    if sources == [] then (t, [])
    else
      var one := CopyMoveSpec(t, c, pwd, kind, sources[0], Target(dest, sources[0]));
      var more := CopyEach(one.0, c, pwd, kind, sources[1..], dest);
      (more.0, one.1 + more.1)
  }

  ghost predicate CopiedSoFar(t: Table, c: Client, pwd: string, kind: Transfer, rest: seq<string>, dest: string,
                              done: seq<string>, goal: (Table, seq<string>))
    requires ValidTable(t) && ClientOk(c)
  {
    var x := CopyEach(t, c, pwd, kind, rest, dest);
    x.0 == goal.0 && done + x.1 == goal.1
  }

  lemma CopyStep(t: Table, c: Client, pwd: string, kind: Transfer, rest: seq<string>, dest: string,
                 done: seq<string>, goal: (Table, seq<string>), t1: Table, lines: seq<string>)
    requires ValidTable(t) && ClientOk(c) && CopiedSoFar(t, c, pwd, kind, rest, dest, done, goal) && rest != []
    requires (t1, lines) == CopyMoveSpec(t, c, pwd, kind, rest[0], Target(dest, rest[0]))
    ensures CopiedSoFar(t1, c, pwd, kind, rest[1..], dest, done + lines, goal)
  {
    var x := CopyEach(t1, c, pwd, kind, rest[1..], dest);
    CopyEachCons(t, c, pwd, kind, rest, dest, t1, lines);
    AppendAssoc(done, lines, x.1);
  }

  /** The first source's copy, then the others from the cache it left. */
  lemma CopyEachCons(t: Table, c: Client, pwd: string, kind: Transfer, rest: seq<string>, dest: string,
                     t1: Table, lines: seq<string>)
    requires ValidTable(t) && ClientOk(c) && rest != []
    requires (t1, lines) == CopyMoveSpec(t, c, pwd, kind, rest[0], Target(dest, rest[0]))
    ensures ValidTable(t1)
    ensures var x := CopyEach(t1, c, pwd, kind, rest[1..], dest);
            CopyEach(t, c, pwd, kind, rest, dest) == (x.0, lines + x.1)
  {
  }

  method CopyAll(state: State, kind: Transfer, sources: seq<string>, dest: string) returns (out: seq<string>)
    requires state.Valid()
    modifies state.cache
    ensures state.Valid()
    ensures (state.cache.table, out) == CopyEach(old(state.cache.table), state.client, state.pwd, kind, sources, dest)
  {
    out := [];
    ghost var goal := CopyEach(state.cache.table, state.client, state.pwd, kind, sources, dest);
    var i := 0;
    assert sources[i..] == sources;
    assert [] + goal.1 == goal.1;
    while i < |sources|
      invariant 0 <= i <= |sources|
      invariant state.Valid()
      invariant CopiedSoFar(state.cache.table, state.client, state.pwd, kind, sources[i..], dest, out, goal)
    {
      DropOne(sources, i);
      ghost var t := state.cache.table;
      var lines := CopyMove(state, kind, sources[i], Target(dest, sources[i]));
      CopyStep(t, state.client, state.pwd, kind, sources[i..], dest, out, goal, state.cache.table, lines);
      out := out + lines;
      i := i + 1;
    }
    assert sources[i..] == [];
    assert out + [] == out;
  }

  /** Several sources, or one into a directory: when the destination has
      metadata each source goes into it, otherwise one line says it is not
      there. */
  function IntoSpec(t: Table, c: Client, pwd: string, kind: Transfer, sources: seq<string>,
                    last: string, cmd: string): (r: (Table, seq<string>))
    requires ValidTable(t) && ClientOk(c)
    ensures ValidTable(r.0)
  {
    var m := MetadataSpec(t, c, Resolve(pwd, last), true);
    if m.1.Some? then CopyEach(m.0, c, pwd, kind, sources, last)
    else (m.0, [cmd + ": " + last + ": no such directory"])
  }

  method Into(state: State, kind: Transfer, sources: seq<string>, last: string, cmd: string)
    returns (out: seq<string>)
    requires state.Valid()
    modifies state.cache
    ensures state.Valid()
    ensures (state.cache.table, out) == IntoSpec(old(state.cache.table), state.client, state.pwd, kind, sources, last, cmd)
  {
    var dest := state.ResolvePath(last);
    var m := state.Metadata(dest, true);
    if m.Some? {
      out := CopyAll(state, kind, sources, last);
    } else {
      out := [cmd + ": " + last + ": no such directory"];
    }
  }

  /** `cp_mv(client, state, args, output, cmd, method)`: the sources are the
      expansion of every argument but the last. One source and a
      destination that is not a directory make a single copy or move to the
      destination as typed. Otherwise, when the destination has metadata,
      each source goes into it under its own base name; when it has none,
      one `no such directory` line is output. */
  function CpMvSpec(t: Table, c: Client, pwd: string, fnmatch: (string, string) -> bool,
                    args: seq<string>, cmd: string, kind: Transfer): (r: (Table, seq<string>))
    requires ValidTable(t) && ClientOk(c) && args != []
  {
    var e := ExpandSpec(t, c, pwd, fnmatch, args[..|args| - 1], true);
    var d := DispatchSpec(e.0, c, pwd, kind, Report(cmd, e.1).0, args[|args| - 1], cmd);
    (d.0, Report(cmd, e.1).1 + d.1)
  }

  /** The copies or moves `cp_mv` makes once the sources are known. */
  function DispatchSpec(t: Table, c: Client, pwd: string, kind: Transfer, sources: seq<string>,
                        last: string, cmd: string): (r: (Table, seq<string>))
    requires ValidTable(t) && ClientOk(c)
    ensures ValidTable(r.0)
  {
    if |sources| == 1 then SingleSpec(t, c, pwd, kind, sources[0], last, cmd)
    else IntoSpec(t, c, pwd, kind, sources, last, cmd)
  }

  /** One source: into the destination when it is a directory, otherwise
      to the destination as typed. */
  function SingleSpec(t: Table, c: Client, pwd: string, kind: Transfer, source: string,
                      last: string, cmd: string): (r: (Table, seq<string>))
    requires ValidTable(t) && ClientOk(c)
    ensures ValidTable(r.0)
  {
    var d := DirectorySpec(t, c, pwd, Resolve(pwd, last));
    if d.1 then IntoSpec(d.0, c, pwd, kind, [source], last, cmd)
    else CopyMoveSpec(d.0, c, pwd, kind, source, last)
  }

  /** `SingleSpec` once the destination's directory test is known. */
  lemma SingleSpecCases(t: Table, c: Client, pwd: string, kind: Transfer, source: string,
                        last: string, cmd: string, t1: Table, isDir: bool)
    requires ValidTable(t) && ClientOk(c)
    requires (t1, isDir) == DirectorySpec(t, c, pwd, Resolve(pwd, last))
    ensures ValidTable(t1)
    ensures isDir ==> SingleSpec(t, c, pwd, kind, source, last, cmd) == IntoSpec(t1, c, pwd, kind, [source], last, cmd)
    ensures !isDir ==> SingleSpec(t, c, pwd, kind, source, last, cmd) == CopyMoveSpec(t1, c, pwd, kind, source, last)
  {
  }

  method Single(state: State, kind: Transfer, source: string, last: string, cmd: string)
    returns (out: seq<string>)
    requires state.Valid()
    modifies state.cache
    ensures state.Valid()
    ensures (state.cache.table, out) == SingleSpec(old(state.cache.table), state.client, state.pwd, kind, source, last, cmd)
  {
    var dest := state.ResolvePath(last);
    var isDir := state.IsDirectory(dest);
    SingleSpecCases(old(state.cache.table), state.client, state.pwd, kind, source, last, cmd, state.cache.table, isDir);
    if isDir {
      out := Into(state, kind, [source], last, cmd);
    } else {
      out := CopyMove(state, kind, source, last);
    }
  }

  method Dispatch(state: State, kind: Transfer, sources: seq<string>, last: string, cmd: string)
    returns (out: seq<string>)
    requires state.Valid()
    modifies state.cache
    ensures state.Valid()
    ensures (state.cache.table, out) == DispatchSpec(old(state.cache.table), state.client, state.pwd, kind, sources, last, cmd)
  {
    if |sources| == 1 {
      out := Single(state, kind, sources[0], last, cmd);
    } else {
      out := Into(state, kind, sources, last, cmd);
    }
  }

  method CpMv(state: State, args: seq<string>, cmd: string, kind: Transfer, fnmatch: (string, string) -> bool)
    returns (out: seq<string>)
    requires state.Valid() && args != []
    modifies state.cache
    ensures state.Valid()
    ensures (state.cache.table, out) == CpMvSpec(old(state.cache.table), state.client, state.pwd, fnmatch, args, cmd, kind)
  {
    var sources, misses := Expand(state, cmd, args[..|args| - 1], fnmatch);
    var lines := Dispatch(state, kind, sources, args[|args| - 1], cmd);
    out := misses + lines;
  }

  // ---------------------------------------------------------------------
  // ls: the arguments (lib/droxi/commands.rb:216-228)
  // ---------------------------------------------------------------------

  /** The cache after sorting expanded items into files and directories,
      with one line per pattern that matched nothing. */
  datatype Sorted = Sorted(table: Table, files: seq<string>, dirs: seq<string>, lines: seq<string>)

  /** One expanded item of `ls`: a directory, a file, or a pattern that
      matched nothing. */
  function ClassifyOne(t: Table, c: Client, pwd: string, item: Expansion): (r: Sorted)
    ensures ValidTable(t) && ClientOk(c) ==> ValidTable(r.table)
    ensures item.GlobError? ==>
              r == Sorted(t, [], [], ["ls: " + item.pattern + ": No such file or directory"])
    ensures item.Path? ==>
              var d := DirectorySpec(t, c, pwd, item.path);
              && r.table == d.0 && r.lines == []
              && (d.1 ==> r.files == [] && r.dirs == [item.path])
              && (!d.1 ==> r.files == [item.path] && r.dirs == [])
  {
    match item
    case GlobError(pattern) => Sorted(t, [], [], ["ls: " + pattern + ": No such file or directory"])
    case Path(p) =>
      var d := DirectorySpec(t, c, pwd, p);
      if d.1 then Sorted(d.0, [], [p], []) else Sorted(d.0, [p], [], [])
  }

  /** `b` after `a`: the later cache and the lists appended. */
  function Then(a: Sorted, b: Sorted): Sorted {
    Sorted(b.table, a.files + b.files, a.dirs + b.dirs, a.lines + b.lines)
  }

  /** The loop of `ls` over the expanded items, in order. */
  function Classify(t: Table, c: Client, pwd: string, items: seq<Expansion>): (r: Sorted)
    decreases |items|
    ensures ValidTable(t) && ClientOk(c) ==> ValidTable(r.table)
  {
    if items == [] then Sorted(t, [], [], [])
    else
      var one := ClassifyOne(t, c, pwd, items[0]);
      Then(one, Classify(one.table, c, pwd, items[1..]))
  }

  ghost predicate SortedSoFar(t: Table, c: Client, pwd: string, rest: seq<Expansion>, done: Sorted, goal: Sorted) {
    Then(done, Classify(t, c, pwd, rest)) == goal
  }

  lemma SortStep(t: Table, c: Client, pwd: string, rest: seq<Expansion>, done: Sorted, goal: Sorted, one: Sorted)
    requires SortedSoFar(t, c, pwd, rest, done, goal) && rest != []
    requires one == ClassifyOne(t, c, pwd, rest[0])
    ensures SortedSoFar(one.table, c, pwd, rest[1..], Then(done, one), goal)
  {
    var x := Classify(one.table, c, pwd, rest[1..]);
    assert Classify(t, c, pwd, rest) == Then(one, x);
    ThenAssoc(done, one, x);
  }

  lemma SortStart(t: Table, c: Client, pwd: string, items: seq<Expansion>)
    ensures SortedSoFar(t, c, pwd, items[0..], Sorted(t, [], [], []), Classify(t, c, pwd, items))
  {
    assert items[0..] == items;
  }

  lemma SortEnd(t: Table, c: Client, pwd: string, items: seq<Expansion>, done: Sorted, goal: Sorted)
    requires SortedSoFar(t, c, pwd, items[|items|..], done, goal) && done.table == t
    ensures done == goal
  {
    assert items[|items|..] == [];
    assert done.files + [] == done.files && done.dirs + [] == done.dirs && done.lines + [] == done.lines;
  }

  lemma ThenAssoc(a: Sorted, b: Sorted, d: Sorted)
    ensures Then(Then(a, b), d) == Then(a, Then(b, d))
  {
    assert a.files + b.files + d.files == a.files + (b.files + d.files);
    assert a.dirs + b.dirs + d.dirs == a.dirs + (b.dirs + d.dirs);
    assert a.lines + b.lines + d.lines == a.lines + (b.lines + d.lines);
  }

  method ClassifyItem(state: State, item: Expansion) returns (r: Sorted)
    requires state.Valid()
    modifies state.cache
    ensures state.Valid()
    ensures r == ClassifyOne(old(state.cache.table), state.client, state.pwd, item) && r.table == state.cache.table
  {
    if item.GlobError? {
      r := Sorted(state.cache.table, [], [], ["ls: " + item.pattern + ": No such file or directory"]);
    } else {
      var isDir := state.IsDirectory(item.path);
      if isDir {
        r := Sorted(state.cache.table, [], [item.path], []);
      } else {
        r := Sorted(state.cache.table, [item.path], [], []);
      }
    }
  }

  method ClassifyAll(state: State, items: seq<Expansion>) returns (r: Sorted)
    requires state.Valid()
    modifies state.cache
    ensures state.Valid()
    ensures r == Classify(old(state.cache.table), state.client, state.pwd, items) && r.table == state.cache.table
  {
    r := Sorted(state.cache.table, [], [], []);
    ghost var goal := Classify(state.cache.table, state.client, state.pwd, items);
    var i := 0;
    SortStart(state.cache.table, state.client, state.pwd, items);
    while i < |items|
      invariant 0 <= i <= |items|
      invariant state.Valid() && r.table == state.cache.table
      invariant SortedSoFar(state.cache.table, state.client, state.pwd, items[i..], r, goal)
    {
      DropOne(items, i);
      var one := ClassifyItem(state, items[i]);
      SortStep(r.table, state.client, state.pwd, items[i..], r, goal, one);
      r := Then(r, one);
      i := i + 1;
    }
    SortEnd(state.cache.table, state.client, state.pwd, items, r, goal);
  }

  /** The arguments of `ls`: every `-l` is taken out and selects the long
      form; the rest are expanded with their roots preserved and sorted
      into files and directories; with nothing left, the working directory
      is listed. */
  function LsSpec(t: Table, c: Client, pwd: string, fnmatch: (string, string) -> bool, args: seq<string>)
    : (r: (bool, Sorted))
    ensures r.0 <==> "-l" in args
    ensures ValidTable(t) && ClientOk(c) ==> ValidTable(r.1.table)
  {
    var rest := Hashes.Without(args, "-l");
    var e := ExpandSpec(t, c, pwd, fnmatch, rest, true);
    var s := Classify(e.0, c, pwd, e.1);
    ("-l" in args, if rest == [] then s.(dirs := s.dirs + [pwd]) else s)
  }

  method LsArguments(state: State, args: seq<string>, fnmatch: (string, string) -> bool)
    returns (long: bool, r: Sorted)
    requires state.Valid()
    modifies state.cache
    ensures state.Valid() && r.table == state.cache.table
    ensures (long, r) == LsSpec(old(state.cache.table), state.client, state.pwd, fnmatch, args)
  {
    long := "-l" in args;
    var rest := Hashes.Without(args, "-l");
    var items := state.ExpandPatterns(rest, true, fnmatch);
    r := ClassifyAll(state, items);
    if rest == [] {
      r := r.(dirs := r.dirs + [state.pwd]);
    }
  }
}
