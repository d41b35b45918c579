/**
 * The parts of the entry point lib/droxi.rb that decide something: how
 * command-line arguments are joined into one command line, how the
 * `REENTER` marker is read and removed, and how the working directory is set
 * around an interactive session so that the next session can resume it.
 * Option parsing, authorisation, Readline and the interaction loop itself are
 * not part of this model.
 */
module Droxi {
  import opened Wrappers
  import opened Strings
  import opened Hashes
  import opened Commands
  import CommandProperties
  import Session
  import Config

  // ---------------------------------------------------------------------
  // join_cmd (lib/droxi.rb:107-109)
  // ---------------------------------------------------------------------

  /** `arg.gsub(' ', '\ ')`: every space gets a backslash before it. */
  function Escape(arg: string): (r: string)
    ensures |r| >= |arg|
    ensures |r| > 0 ==> r[0] != ' '
    ensures forall i, j :: 0 <= i && j == i + 1 && j < |r| && r[j] == ' ' ==> r[i] == '\\'
  {
    if arg == [] then "" else (if arg[0] == ' ' then "\\ " else [arg[0]]) + Escape(arg[1..])
  }

  function EscapeAll(args: seq<string>): (r: seq<string>)
    ensures |r| == |args|
    ensures forall i :: 0 <= i < |r| ==> r[i] == Escape(args[i])
  {
    seq(|args|, i requires 0 <= i < |args| => Escape(args[i]))
  }

  /** `join_cmd(args)`: the escaped arguments joined by single spaces. */
  function JoinCmd(args: seq<string>): (r: string)
    ensures args == [] ==> r == ""
    ensures args != [] ==> StartsWith(r, Escape(args[0]))
  {
    Join(EscapeAll(args), " ")
  }

  /** An argument that survives `join_cmd` and `tokenize` unchanged: it is
      not empty, its only whitespace is the space, and it ends in neither a
      space nor a backslash. */
  predicate Joinable(arg: string) {
    && arg != []
    && (forall i :: 0 <= i < |arg| ==> arg[i] == ' ' || !IsSpace(arg[i]))
    && arg[|arg| - 1] != ' ' && arg[|arg| - 1] != '\\'
  }

  // ---------------------------------------------------------------------
  // Reading REENTER (lib/droxi.rb:33-34)
  // ---------------------------------------------------------------------

  /** `reenter = ARGV[0] == 'REENTER'` followed by
      `ARGV.delete_if { |arg| arg == 'REENTER' }`. */
  method ReadReenter(argv: seq<string>) returns (reenter: bool, args: seq<string>)
    ensures reenter <==> argv != [] && argv[0] == "REENTER"
    ensures args == Without(argv, "REENTER")
  {
    reenter := argv != [] && argv[0] == "REENTER";
    args := [];
    var i := 0;
    while i < |argv|
      invariant 0 <= i <= |argv|
      invariant args == Without(argv[..i], "REENTER")
    {
      WithoutSnoc(argv[..i], argv[i], "REENTER");
      assert argv[..i + 1] == argv[..i] + [argv[i]];
      if argv[i] != "REENTER" {
        args := args + [argv[i]];
      }
      i := i + 1;
    }
    assert argv[..i] == argv;
  }

  /** Removing a key from a sequence one more element long. */
  lemma {:induction false} WithoutSnoc(s: seq<string>, x: string, k: string)
    ensures Without(s + [x], k) == Without(s, k) + (if x == k then [] else [x])
  {
    if s == [] {
      assert [] + [x] == [x];
    } else {
      assert (s + [x])[0] == s[0] && (s + [x])[1..] == s[1..] + [x];
      WithoutSnoc(s[1..], x, k);
    }
  }

  // ---------------------------------------------------------------------
  // The working directory around an interactive session (lib/droxi.rb:140-157)
  // ---------------------------------------------------------------------

  /** The start of `run_interactive`: on re-entry the working directory
      becomes the saved previous one. */
  method EnterInteractive(state: Session.State, reenter: bool)
    requires state.Valid()
    modifies state, state.settings
    ensures state.Valid()
    ensures reenter ==> state.pwd == old(state.oldpwd) && state.oldpwd == old(state.pwd)
    ensures reenter ==> state.settings.Get("oldpwd") == Some(old(state.pwd))
    ensures reenter && old(state.settings.Get("oldpwd")) != Some(old(state.pwd)) ==>
              state.settings.store == Store(old(state.settings.store), "oldpwd", old(state.pwd)) &&
              state.settings.dirty
    ensures reenter && old(state.settings.Get("oldpwd")) == Some(old(state.pwd)) ==>
              state.settings.store == old(state.settings.store) && state.settings.dirty == old(state.settings.dirty)
    ensures !reenter ==> state.pwd == old(state.pwd) && state.oldpwd == old(state.oldpwd)
    ensures !reenter ==> state.settings.store == old(state.settings.store) &&
                         state.settings.dirty == old(state.settings.dirty)
    ensures state.localOldpwd == old(state.localOldpwd) && state.exitRequested == old(state.exitRequested)
    ensures state.debugEnabled == old(state.debugEnabled)
  {
    if reenter {
      state.SetPwd(state.oldpwd);
    }
  }

  /** The end of `run_interactive`: the working directory is set to the root,
      so that the last one is what the `oldpwd` setting saves. */
  method LeaveInteractive(state: Session.State)
    requires state.Valid()
    modifies state, state.settings
    ensures state.Valid()
    ensures state.pwd == "/" && state.oldpwd == old(state.pwd)
    ensures state.settings.Get("oldpwd") == Some(old(state.pwd))
    ensures old(state.settings.Get("oldpwd")) != Some(old(state.pwd)) ==>
              state.settings.store == Store(old(state.settings.store), "oldpwd", old(state.pwd)) &&
              state.settings.dirty
    ensures old(state.settings.Get("oldpwd")) == Some(old(state.pwd)) ==>
              state.settings.store == old(state.settings.store) && state.settings.dirty == old(state.settings.dirty)
    ensures state.localOldpwd == old(state.localOldpwd) && state.exitRequested == old(state.exitRequested)
    ensures state.debugEnabled == old(state.debugEnabled)
  {
    state.SetPwd("/");
  }

  /** A session started with `REENTER` resumes in the directory the previous
      session saved as `oldpwd`, or in the root when none was saved. */
  method ResumeSession(client: Session.Client, settings: Config.Settings, localPwd: string)
    returns (state: Session.State)
    requires settings.Valid() && Session.ClientOk(client)
    modifies settings
    ensures state.Valid() && state.settings == settings
    ensures state.pwd == old(settings.Get("oldpwd")).GetOr("/")
    ensures state.oldpwd == "/"
  {
    state := new Session.State(client, settings, localPwd);
    EnterInteractive(state, true);
  }
}

/**
 * `join_cmd` and `tokenize` are inverse on joinable arguments.
 */
module DroxiProperties {
  import opened Wrappers
  import opened Strings
  import opened Hashes
  import opened Commands
  import opened Droxi
  import CommandProperties

  // ---------------------------------------------------------------------
  // REENTER
  // ---------------------------------------------------------------------

  /** Every `REENTER` is removed and every other argument keeps its
      number of occurrences. */
  lemma {:induction false} WithoutCounts(s: seq<string>, k: string, x: string)
    ensures multiset(Without(s, k))[x] == if x == k then 0 else multiset(s)[x]
  {
    if s != [] {
      WithoutCounts(s[1..], k, x);
      assert s == [s[0]] + s[1..];
    }
  }

  // ---------------------------------------------------------------------
  // escaping
  // ---------------------------------------------------------------------

  lemma {:induction false} EscapeAppend(a: string, b: string)
    ensures Escape(a + b) == Escape(a) + Escape(b)
  {
    if a == [] {
      assert a + b == b;
    } else {
      assert (a + b)[0] == a[0] && (a + b)[1..] == a[1..] + b;
      EscapeAppend(a[1..], b);
    }
  }

  lemma {:induction false} EscapeNoSpace(f: string)
    requires !Contains(f, ' ')
    ensures Escape(f) == f
  {
    if f != [] {
      assert f[0] != ' ';
      assert !Contains(f[1..], ' ') by {
        forall i | 0 <= i < |f[1..]| ensures f[1..][i] != ' ' {
          assert f[1..][i] == f[i + 1];
        }
      }
      EscapeNoSpace(f[1..]);
    }
  }

  /** The words that `split` finds in an escaped argument: each field of the
      argument but the last followed by a backslash, then the last field. */
  function EscToks(fs: seq<string>): (r: seq<string>)
    requires fs != []
    ensures r != []
  {
    if |fs| == 1 then [fs[0]] else [fs[0] + "\\"] + EscToks(fs[1..])
  }

  /** Escaping a space-free word, a space and more text. */
  lemma EscapeSpaceJoin(a: string, j: string)
    requires !Contains(a, ' ')
    ensures Escape(a + " " + j) == a + "\\ " + Escape(j)
  {
    EscapeNoSpace(a);
    assert a + " " + j == a + (" " + j);
    EscapeAppend(a, " " + j);
    EscapeAppend(" ", j);
    assert Escape(" ") == "\\ ";
  }

  lemma {:induction false} EscapeFields(fs: seq<string>)
    requires fs != []
    requires forall i :: 0 <= i < |fs| ==> !Contains(fs[i], ' ')
    ensures Escape(Join(fs, " ")) == Join(EscToks(fs), " ")
  {
    if |fs| == 1 {
      EscapeNoSpace(fs[0]);
    } else {
      var rest := fs[1..];
      assert forall i :: 0 <= i < |rest| ==> rest[i] == fs[i + 1];
      EscapeFields(rest);
      EscapeSpaceJoin(fs[0], Join(rest, " "));
      var ts := EscToks(rest);
      assert ([fs[0] + "\\"] + ts)[1..] == ts;
      assert fs[0] + "\\ " + Join(ts, " ") == fs[0] + "\\" + " " + Join(ts, " ");
    }
  }

  // ---------------------------------------------------------------------
  // Join and its last part
  // ---------------------------------------------------------------------

  lemma {:induction false} JoinLast(fs: seq<string>)
    requires fs != []
    ensures |fs| == 1 ==> Join(fs, " ") == fs[0]
    ensures |fs| > 1 ==> EndsWith(Join(fs, " "), " " + fs[|fs| - 1])
  {
    if |fs| > 2 {
      JoinLast(fs[1..]);
      var j := Join(fs[1..], " ");
      var t := " " + fs[|fs| - 1];
      assert (fs[0] + " " + j)[|fs[0] + " " + j| - |t|..] == j[|j| - |t|..];
    }
  }

  lemma {:induction false} JoinAppend(xs: seq<string>, ys: seq<string>)
    requires xs != [] && ys != []
    ensures Join(xs + ys, " ") == Join(xs, " ") + " " + Join(ys, " ")
  {
    if |xs| == 1 {
      assert (xs + ys)[1..] == ys;
    } else {
      assert (xs + ys)[1..] == xs[1..] + ys;
      JoinAppend(xs[1..], ys);
    }
  }

  /** Only the space is whitespace in `s`. */
  predicate OnlySpace(s: string) {
    forall i :: 0 <= i < |s| ==> s[i] == ' ' || !IsSpace(s[i])
  }

  lemma {:induction false} OnlySpaceFields(fs: seq<string>)
    requires fs != [] && OnlySpace(Join(fs, " "))
    ensures forall i :: 0 <= i < |fs| ==> OnlySpace(fs[i])
  {
    if |fs| > 1 {
      var j := Join(fs, " ");
      assert j == fs[0] + " " + Join(fs[1..], " ");
      forall k | 0 <= k < |fs[0]| ensures fs[0][k] == ' ' || !IsSpace(fs[0][k]) {
        assert j[k] == fs[0][k];
      }
      forall k | 0 <= k < |Join(fs[1..], " ")|
        ensures Join(fs[1..], " ")[k] == ' ' || !IsSpace(Join(fs[1..], " ")[k])
      {
        assert j[|fs[0]| + 1 + k] == Join(fs[1..], " ")[k];
      }
      OnlySpaceFields(fs[1..]);
      forall i | 0 <= i < |fs| ensures OnlySpace(fs[i]) {
        if i > 0 {
          assert fs[i] == fs[1..][i - 1];
        }
      }
    }
  }

  /** Fields of a line whose only whitespace is the space, split at spaces,
      hold no whitespace at all. */
  lemma FieldsNoSpace(fs: seq<string>, a: string)
    requires fs != [] && Join(fs, " ") == a && OnlySpace(a)
    requires Separated(fs, ' ')
    ensures SpaceFree(fs)
  {
    OnlySpaceFields(fs);
    forall i | 0 <= i < |fs| ensures NoSpace(fs[i]) {
      forall k | 0 <= k < |fs[i]| ensures !IsSpace(fs[i][k]) {
        assert fs[i][k] != ' ';
      }
    }
  }

  /** No piece holds whitespace of any kind. */
  predicate SpaceFree(fs: seq<string>) {
    forall i :: 0 <= i < |fs| ==> NoSpace(fs[i])
  }

  /** The last field ends where the joined line ends. */
  lemma LastFieldEnd(fs: seq<string>, a: string)
    requires fs != [] && Join(fs, " ") == a && fs[|fs| - 1] != []
    ensures a != [] && fs[|fs| - 1][|fs[|fs| - 1]| - 1] == a[|a| - 1]
  {
    JoinLast(fs);
    var last := fs[|fs| - 1];
    if |fs| > 1 {
      var t := " " + last;
      assert a[|a| - |t|..] == t;
      assert t[|t| - 1] == last[|last| - 1];
    }
  }

  /** The fields of a joinable argument: none holds whitespace, the last is
      not empty and does not end in a backslash, and they join back to it. */
  lemma FieldsOfJoinable(a: string, fs: seq<string>)
    requires Joinable(a) && fs == Fields(a, ' ')
    ensures fs != [] && Join(fs, " ") == a
    ensures SpaceFree(fs) && Separated(fs, ' ')
    ensures fs[|fs| - 1] != [] && fs[|fs| - 1][|fs[|fs| - 1]| - 1] != '\\'
  {
    JoinablePieces(a, fs);
  }

  /** The same, for any pieces with the properties `Fields` promises. */
  lemma JoinablePieces(a: string, fs: seq<string>)
    requires Joinable(a) && |fs| >= 1 && Join(fs, [' ']) == a
    requires Separated(fs, ' ')
    requires fs[|fs| - 1] == [] <==> (a == [] || a[|a| - 1] == ' ')
    ensures Join(fs, " ") == a
    ensures SpaceFree(fs)
    ensures fs[|fs| - 1] != [] && fs[|fs| - 1][|fs[|fs| - 1]| - 1] != '\\'
  {
    assert [' '] == " ";
    assert OnlySpace(a);
    FieldsNoSpace(fs, a);
    LastFieldEnd(fs, a);
  }

  // ---------------------------------------------------------------------
  // split of the joined line
  // ---------------------------------------------------------------------

  /** Words without whitespace joined by single spaces split back into themselves. */
  lemma {:induction false} SplitJoin(toks: seq<string>)
    requires forall i :: 0 <= i < |toks| ==> toks[i] != [] && NoSpace(toks[i])
    ensures SplitWs(Join(toks, " ")) == toks
  {
    if |toks| == 1 {
      SplitWsCons(toks[0], "");
    } else if |toks| > 1 {
      SplitWsCons(toks[0], Join(toks[1..], " "));
      SplitJoin(toks[1..]);
    }
  }

  /** The words of all arguments, in order. */
  function AllToks(args: seq<string>): (r: seq<string>)
    requires forall i :: 0 <= i < |args| ==> Joinable(args[i])
    ensures args != [] ==> r != []
  {
    if args == [] then []
    else
      FieldsOfJoinable(args[0], Fields(args[0], ' '));
      EscToks(Fields(args[0], ' ')) + AllToks(args[1..])
  }

  lemma {:induction false} EscToksWords(fs: seq<string>)
    requires fs != [] && SpaceFree(fs)
    requires fs[|fs| - 1] != []
    ensures Words(EscToks(fs))
  {
    if |fs| > 1 {
      EscToksWords(fs[1..]);
      var x := fs[0] + "\\";
      assert NoSpace(x) by {
        forall k | 0 <= k < |x| ensures !IsSpace(x[k]) {
          if k < |fs[0]| {
            assert x[k] == fs[0][k];
          }
        }
      }
    }
  }

  lemma {:induction false} AllToksWords(args: seq<string>)
    requires forall i :: 0 <= i < |args| ==> Joinable(args[i])
    ensures Words(AllToks(args))
  {
    if args != [] {
      var fs := Fields(args[0], ' ');
      FieldsOfJoinable(args[0], Fields(args[0], ' '));
      EscToksWords(fs);
      AllToksWords(args[1..]);
      WordsAppend(EscToks(fs), AllToks(args[1..]));
    }
  }

  /** Every token is a non-empty word. */
  predicate Words(ts: seq<string>) {
    forall i :: 0 <= i < |ts| ==> ts[i] != [] && NoSpace(ts[i])
  }

  lemma WordsAppend(a: seq<string>, b: seq<string>)
    requires Words(a) && Words(b)
    ensures Words(a + b)
  {
    assert forall i :: |a| <= i < |a + b| ==> (a + b)[i] == b[i - |a|];
  }

  /** The joined line is the words of all arguments joined by single spaces. */
  lemma {:induction false} JoinCmdWords(args: seq<string>)
    requires forall i :: 0 <= i < |args| ==> Joinable(args[i])
    ensures JoinCmd(args) == Join(AllToks(args), " ")
  {
    if args != [] {
      var fs := Fields(args[0], ' ');
      FieldsOfJoinable(args[0], Fields(args[0], ' '));
      EscapeFields(fs);
      assert Escape(args[0]) == Join(EscToks(fs), " ");
      assert EscapeAll(args)[0] == Escape(args[0]);
      assert EscapeAll(args)[1..] == EscapeAll(args[1..]);
      if |args| == 1 {
        assert AllToks(args) == EscToks(fs);
      } else {
        JoinCmdWords(args[1..]);
        JoinAppend(EscToks(fs), AllToks(args[1..]));
      }
    }
  }

  // ---------------------------------------------------------------------
  // The reduce of tokenize over the words
  // ---------------------------------------------------------------------

  /** A pending word `acc\` absorbs the remaining fields of its argument. */
  lemma {:induction false} FoldPending(list: seq<string>, acc: string, fs: seq<string>)
    requires fs != []
    ensures Fold(list + [acc + "\\"], EscToks(fs)) == list + [acc + " " + Join(fs, " ")]
    decreases |fs|
  {
    var pending := list + [acc + "\\"];
    if |fs| == 1 {
      PendingMerge(list, acc, fs[0]);
      assert Fold(pending, EscToks(fs)) == Fold(Merge(pending, fs[0]), []);
    } else {
      var tok := fs[0] + "\\";
      PendingMerge(list, acc, tok);
      assert acc + " " + (fs[0] + "\\") == (acc + " " + fs[0]) + "\\";
      assert Fold(pending, EscToks(fs)) == Fold(Merge(pending, tok), EscToks(fs[1..]));
      FoldPending(list, acc + " " + fs[0], fs[1..]);
      JoinMore(acc, fs);
    }
  }

  /** A token after a pending word `acc\` is joined to it by one space. */
  lemma PendingMerge(list: seq<string>, acc: string, tok: string)
    ensures Merge(list + [acc + "\\"], tok) == list + [acc + " " + tok]
  {
    var pending := list + [acc + "\\"];
    assert EndsWith(acc + "\\", "\\") by {
      assert (acc + "\\")[|acc + "\\"| - 1..] == "\\";
    }
    assert pending[..|pending| - 1] == list;
    assert Chop(acc + "\\") == acc;
  }

  lemma JoinMore(acc: string, fs: seq<string>)
    requires |fs| > 1
    ensures (acc + " " + fs[0]) + " " + Join(fs[1..], " ") == acc + " " + Join(fs, " ")
  {
    assert Join(fs, " ") == fs[0] + " " + Join(fs[1..], " ");
  }

  /** From a settled list, the words of one argument add exactly that argument. */
  lemma {:induction false} FoldArgument(list: seq<string>, a: string)
    requires CommandProperties.Settled(list) && Joinable(a)
    ensures Fold(list, EscToks(Fields(a, ' '))) == list + [a]
  {
    var fs := Fields(a, ' ');
    FieldsOfJoinable(a, Fields(a, ' '));
    if |fs| == 1 {
      assert Merge(list, fs[0]) == list + [fs[0]];
    } else {
      assert Merge(list, fs[0] + "\\") == list + [fs[0] + "\\"];
      FoldPending(list, fs[0], fs[1..]);
    }
  }

  /** The words of the first argument turn a settled list into that list
      followed by the argument, which leaves it settled. */
  lemma FoldFirstArgument(list: seq<string>, args: seq<string>)
    requires CommandProperties.Settled(list) && args != []
    requires forall i :: 0 <= i < |args| ==> Joinable(args[i])
    ensures Fold(list, AllToks(args)) == Fold(list + [args[0]], AllToks(args[1..]))
    ensures CommandProperties.Settled(list + [args[0]])
  {
    var a := args[0];
    var toks := EscToks(Fields(a, ' '));
    var rest := AllToks(args[1..]);
    assert AllToks(args) == toks + rest;
    CommandProperties.FoldAppend(list, toks, rest);
    FoldArgument(list, a);
    JoinableSettles(list, a);
  }

  /** A joinable argument does not end in a backslash, so it leaves a list settled. */
  lemma JoinableSettles(list: seq<string>, a: string)
    requires Joinable(a)
    ensures CommandProperties.Settled(list + [a])
  {
    assert a[|a| - 1..] == [a[|a| - 1]];
  }

  lemma {:induction false} FoldArguments(list: seq<string>, args: seq<string>)
    requires CommandProperties.Settled(list)
    requires forall i :: 0 <= i < |args| ==> Joinable(args[i])
    ensures Fold(list, AllToks(args)) == list + args
    decreases |args|, 1
  {
    if args == [] {
      assert AllToks(args) == [];
    } else {
      FoldArgumentsCons(list, args);
    }
  }

  lemma {:induction false} FoldArgumentsCons(list: seq<string>, args: seq<string>)
    requires CommandProperties.Settled(list) && args != []
    requires forall i :: 0 <= i < |args| ==> Joinable(args[i])
    ensures Fold(list, AllToks(args)) == list + args
    decreases |args|, 0
  {
    FoldFirstArgument(list, args);
    JoinableTail(args);
    FoldArguments(list + [args[0]], args[1..]);
    ConsSplit(list, args);
  }

  lemma JoinableTail(args: seq<string>)
    requires args != [] && forall i :: 0 <= i < |args| ==> Joinable(args[i])
    ensures forall i :: 0 <= i < |args[1..]| ==> Joinable(args[1..][i])
  {
  }

  lemma ConsSplit(list: seq<string>, args: seq<string>)
    requires args != []
    ensures list + [args[0]] + args[1..] == list + args
  {
    assert args == [args[0]] + args[1..];
  }

  /** `tokenize(join_cmd(args)) == args` for joinable arguments: a command
      given on the command line reaches the command with its arguments intact. */
  lemma JoinCmdRoundTrip(args: seq<string>)
    requires forall i :: 0 <= i < |args| ==> Joinable(args[i])
    ensures Tokenize(JoinCmd(args)) == args
  {
    JoinCmdWords(args);
    AllToksWords(args);
    SplitJoin(AllToks(args));
    FoldArguments([], args);
    assert [] + args == args;
  }

  /** `join_cmd(['a\\', 'b'])`: only the space between them is escaped. */
  lemma TrailingBackslashLine()
    ensures JoinCmd(["a\\", "b"]) == "a" + "\\ " + "b"
  {
    assert Escape("a\\") == "a\\";
    assert Escape("b") == "b";
  }

  /** An argument ending in a backslash is not joinable: it swallows the
      argument after it. */
  lemma TrailingBackslashMerges()
    ensures Tokenize(JoinCmd(["a\\", "b"])) == ["a b"]
  {
    TrailingBackslashLine();
    CommandProperties.TokenizeEscape("a", "b");
    assert "a" + " " + "b" == "a b";
  }
}
