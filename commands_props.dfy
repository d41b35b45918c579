/**
 * Properties of the command framework: the argument counts each command
 * accepts, as read off its usage synopsis, and the shape of `tokenize`.
 */
module CommandProperties {
  import opened Wrappers
  import opened Strings
  import opened Commands
  import opened Caches
  import opened Session
  import Hashes

  /** Splitting words joined by single spaces gives the words back. */
  lemma {:induction false} SplitJoin(ws: seq<string>)
    requires forall i :: 0 <= i < |ws| ==> ws[i] != [] && NoSpace(ws[i])
    ensures SplitWs(Join(ws, " ")) == ws
    decreases |ws|
  {
    if |ws| == 1 {
      SplitWsCons(ws[0], "");
    } else if |ws| > 1 {
      SplitWsCons(ws[0], Join(ws[1..], " "));
      SplitJoin(ws[1..]);
    }
  }

  /** The fewest arguments each command takes and, when there is a bound, the most. */
  function Arity(name: string): (r: (nat, Option<nat>))
  {
    if name == "cd" || name == "help" || name == "lcd" then (0, Some(1))
    else if name == "cp" || name == "mv" then (2, None)
    else if name == "exit" then (0, Some(0))
    else if name == "forget" || name == "ls" then (0, None)
    else if name == "put" then (1, Some(2))
    else (1, None)
  }

  lemma Words2(a: string, b: string)
    requires a != [] && NoSpace(a) && b != [] && NoSpace(b)
    ensures ArgTokens(a + " " + b) == [b]
  {
    SplitWsCons(a, b);
    SplitWsCons(b, "");
  }

  lemma Words3(a: string, b: string, c: string)
    requires a != [] && NoSpace(a) && b != [] && NoSpace(b) && c != [] && NoSpace(c)
    ensures ArgTokens(a + " " + b + " " + c) == [b, c]
  {
    assert a + " " + b + " " + c == a + " " + (b + " " + c);
    SplitWsCons(a, b + " " + c);
    SplitWsCons(b, c);
    SplitWsCons(c, "");
  }

  /** Whether a token is optional is decided by its first character. */
  lemma Bracketed(t: string)
    ensures StartsWith(t, "[") <==> t != [] && t[0] == '['
  {
    if t != [] && t[0] == '[' {
      assert t[..1] == "[";
    }
  }

  /** An ellipsis ends in a dot. */
  lemma Dotted(t: string)
    ensures EndsWith(t, "...") ==> t != [] && t[|t| - 1] == '.'
  {
    if EndsWith(t, "...") {
      assert t[|t| - 1] == t[|t| - 3..][2];
    }
  }

  lemma NoArgs(usage: string, n: nat)
    requires ArgTokens(usage) == []
    ensures NumArgsOk(usage, n) <==> n == 0
  {
  }

  lemma OneOptional(usage: string, a: string, n: nat)
    requires ArgTokens(usage) == [a]
    requires a != [] && a[0] == '[' && a[|a| - 1] != '.'
    ensures NumArgsOk(usage, n) <==> n <= 1
  {
    Bracketed(a);
    Dotted(a);
    assert !Variadic([a]);
  }

  lemma AnyNumber(usage: string, a: string, n: nat)
    requires ArgTokens(usage) == [a]
    requires a != [] && a[0] == '[' && EndsWith(a, "...")
    ensures NumArgsOk(usage, n)
  {
    Bracketed(a);
    assert EndsWith([a][0], "...");
  }

  lemma AnyNumber2(usage: string, a: string, b: string, n: nat)
    requires ArgTokens(usage) == [a, b]
    requires a != [] && a[0] == '[' && b != [] && b[0] == '[' && EndsWith(b, "...")
    ensures NumArgsOk(usage, n)
  {
    Bracketed(a);
    Bracketed(b);
    assert Required([a, b][1..]) == 0;
    assert EndsWith([a, b][1], "...");
  }

  lemma OneOrMore(usage: string, a: string, n: nat)
    requires ArgTokens(usage) == [a]
    requires a != [] && a[0] != '[' && EndsWith(a, "...")
    ensures NumArgsOk(usage, n) <==> n >= 1
  {
    Bracketed(a);
    assert EndsWith([a][0], "...");
  }

  /** A synopsis with a required variadic token followed by a required one. */
  lemma ManyThenOne(usage: string, a: string, b: string, n: nat)
    requires ArgTokens(usage) == [a, b]
    requires a != [] && a[0] != '[' && EndsWith(a, "...")
    requires b != [] && b[0] != '['
    ensures NumArgsOk(usage, n) <==> n >= 2
  {
    Bracketed(a);
    Bracketed(b);
    assert Required([a, b][1..]) == 1;
    assert EndsWith([a, b][0], "...");
  }

  lemma OneThenOptional(usage: string, a: string, b: string, n: nat)
    requires ArgTokens(usage) == [a, b]
    requires a != [] && a[0] != '[' && a[|a| - 1] != '.'
    requires b != [] && b[0] == '[' && b[|b| - 1] != '.'
    ensures NumArgsOk(usage, n) <==> 1 <= n <= 2
  {
    Bracketed(a);
    Bracketed(b);
    Dotted(a);
    Dotted(b);
    assert Required([a, b][1..]) == 0;
    assert !Variadic([a, b]);
  }

  lemma CdTokens()
    ensures ArgTokens(UsageOf("cd").value) == ["[REMOTE_DIR]"]
  {
    assert UsageOf("cd").value == "cd" + " " + "[REMOTE_DIR]";
    Words2("cd", "[REMOTE_DIR]");
  }

  lemma CdArity(n: nat)
    ensures NumArgsOk(UsageOf("cd").value, n) <==> n <= 1
  {
    CdTokens();
    OneOptional(UsageOf("cd").value, "[REMOTE_DIR]", n);
  }

  lemma CpTokens()
    ensures ArgTokens(UsageOf("cp").value) == ["REMOTE_FILE...", "REMOTE_FILE"]
  {
    assert UsageOf("cp").value == "cp" + " " + "REMOTE_FILE..." + " " + "REMOTE_FILE";
    Words3("cp", "REMOTE_FILE...", "REMOTE_FILE");
  }

  lemma CpArity(n: nat)
    ensures NumArgsOk(UsageOf("cp").value, n) <==> n >= 2
  {
    CpTokens();
    assert EndsWith("REMOTE_FILE...", "...");
    ManyThenOne(UsageOf("cp").value, "REMOTE_FILE...", "REMOTE_FILE", n);
  }

  lemma ExitTokens()
    ensures ArgTokens(UsageOf("exit").value) == []
  {
    assert UsageOf("exit").value == "exit";
    SplitWsCons("exit", "");
  }

  lemma ExitArity(n: nat)
    ensures NumArgsOk(UsageOf("exit").value, n) <==> n == 0
  {
    ExitTokens();
    NoArgs(UsageOf("exit").value, n);
  }

  lemma ForgetTokens()
    ensures ArgTokens(UsageOf("forget").value) == ["[REMOTE_DIR]..."]
  {
    assert UsageOf("forget").value == "forget" + " " + "[REMOTE_DIR]...";
    Words2("forget", "[REMOTE_DIR]...");
  }

  lemma ForgetArity(n: nat)
    ensures NumArgsOk(UsageOf("forget").value, n)
  {
    ForgetTokens();
    assert EndsWith("[REMOTE_DIR]...", "...");
    AnyNumber(UsageOf("forget").value, "[REMOTE_DIR]...", n);
  }

  lemma GetTokens()
    ensures ArgTokens(UsageOf("get").value) == ["REMOTE_FILE..."]
  {
    assert UsageOf("get").value == "get" + " " + "REMOTE_FILE...";
    Words2("get", "REMOTE_FILE...");
  }

  lemma GetArity(n: nat)
    ensures NumArgsOk(UsageOf("get").value, n) <==> n >= 1
  {
    GetTokens();
    assert EndsWith("REMOTE_FILE...", "...");
    OneOrMore(UsageOf("get").value, "REMOTE_FILE...", n);
  }

  lemma HelpTokens()
    ensures ArgTokens(UsageOf("help").value) == ["[COMMAND]"]
  {
    assert UsageOf("help").value == "help" + " " + "[COMMAND]";
    Words2("help", "[COMMAND]");
  }

  lemma HelpArity(n: nat)
    ensures NumArgsOk(UsageOf("help").value, n) <==> n <= 1
  {
    HelpTokens();
    OneOptional(UsageOf("help").value, "[COMMAND]", n);
  }

  lemma LcdTokens()
    ensures ArgTokens(UsageOf("lcd").value) == ["[LOCAL_DIR]"]
  {
    assert UsageOf("lcd").value == "lcd" + " " + "[LOCAL_DIR]";
    Words2("lcd", "[LOCAL_DIR]");
  }

  lemma LcdArity(n: nat)
    ensures NumArgsOk(UsageOf("lcd").value, n) <==> n <= 1
  {
    LcdTokens();
    OneOptional(UsageOf("lcd").value, "[LOCAL_DIR]", n);
  }

  lemma LsTokens()
    ensures ArgTokens(UsageOf("ls").value) == ["[-l]", "[REMOTE_FILE]..."]
  {
    assert UsageOf("ls").value == "ls" + " " + "[-l]" + " " + "[REMOTE_FILE]...";
    Words3("ls", "[-l]", "[REMOTE_FILE]...");
  }

  lemma LsArity(n: nat)
    ensures NumArgsOk(UsageOf("ls").value, n)
  {
    LsTokens();
    assert EndsWith("[REMOTE_FILE]...", "...");
    AnyNumber2(UsageOf("ls").value, "[-l]", "[REMOTE_FILE]...", n);
  }

  lemma MediaTokens()
    ensures ArgTokens(UsageOf("media").value) == ["REMOTE_FILE..."]
  {
    assert UsageOf("media").value == "media" + " " + "REMOTE_FILE...";
    Words2("media", "REMOTE_FILE...");
  }

  lemma MediaArity(n: nat)
    ensures NumArgsOk(UsageOf("media").value, n) <==> n >= 1
  {
    MediaTokens();
    assert EndsWith("REMOTE_FILE...", "...");
    OneOrMore(UsageOf("media").value, "REMOTE_FILE...", n);
  }

  lemma MkdirTokens()
    ensures ArgTokens(UsageOf("mkdir").value) == ["REMOTE_DIR..."]
  {
    assert UsageOf("mkdir").value == "mkdir" + " " + "REMOTE_DIR...";
    Words2("mkdir", "REMOTE_DIR...");
  }

  lemma MkdirArity(n: nat)
    ensures NumArgsOk(UsageOf("mkdir").value, n) <==> n >= 1
  {
    MkdirTokens();
    assert EndsWith("REMOTE_DIR...", "...");
    OneOrMore(UsageOf("mkdir").value, "REMOTE_DIR...", n);
  }

  lemma MvTokens()
    ensures ArgTokens(UsageOf("mv").value) == ["REMOTE_FILE...", "REMOTE_FILE"]
  {
    assert UsageOf("mv").value == "mv" + " " + "REMOTE_FILE..." + " " + "REMOTE_FILE";
    Words3("mv", "REMOTE_FILE...", "REMOTE_FILE");
  }

  lemma MvArity(n: nat)
    ensures NumArgsOk(UsageOf("mv").value, n) <==> n >= 2
  {
    MvTokens();
    assert EndsWith("REMOTE_FILE...", "...");
    ManyThenOne(UsageOf("mv").value, "REMOTE_FILE...", "REMOTE_FILE", n);
  }

  lemma PutTokens()
    ensures ArgTokens(UsageOf("put").value) == ["LOCAL_FILE", "[REMOTE_FILE]"]
  {
    assert UsageOf("put").value == "put" + " " + "LOCAL_FILE" + " " + "[REMOTE_FILE]";
    Words3("put", "LOCAL_FILE", "[REMOTE_FILE]");
  }

  lemma PutArity(n: nat)
    ensures NumArgsOk(UsageOf("put").value, n) <==> 1 <= n <= 2
  {
    PutTokens();
    OneThenOptional(UsageOf("put").value, "LOCAL_FILE", "[REMOTE_FILE]", n);
  }

  lemma RmTokens()
    ensures ArgTokens(UsageOf("rm").value) == ["REMOTE_FILE..."]
  {
    assert UsageOf("rm").value == "rm" + " " + "REMOTE_FILE...";
    Words2("rm", "REMOTE_FILE...");
  }

  lemma RmArity(n: nat)
    ensures NumArgsOk(UsageOf("rm").value, n) <==> n >= 1
  {
    RmTokens();
    assert EndsWith("REMOTE_FILE...", "...");
    OneOrMore(UsageOf("rm").value, "REMOTE_FILE...", n);
  }

  lemma ShareTokens()
    ensures ArgTokens(UsageOf("share").value) == ["REMOTE_FILE..."]
  {
    assert UsageOf("share").value == "share" + " " + "REMOTE_FILE...";
    Words2("share", "REMOTE_FILE...");
  }

  lemma ShareArity(n: nat)
    ensures NumArgsOk(UsageOf("share").value, n) <==> n >= 1
  {
    ShareTokens();
    assert EndsWith("REMOTE_FILE...", "...");
    OneOrMore(UsageOf("share").value, "REMOTE_FILE...", n);
  }

  /** The counts `num_args_ok?` accepts for `name`, as `Arity` gives them. */
  predicate ArityHolds(name: string, n: nat) {
    && UsageOf(name).Some?
    && (NumArgsOk(UsageOf(name).value, n) <==>
          Arity(name).0 <= n && (Arity(name).1 == None || n <= Arity(name).1.value))
  }

  /** `ArityHolds` for the command at position `i` of the table. */
  lemma ArityAt(i: nat, n: nat)
    requires i < |Names|
    ensures ArityHolds(Names[i], n)
  {
    if i == 0 {
      assert Names[i] == "cd" && Arity("cd") == (0, Some(1));
      CdArity(n);
    } else if i == 1 {
      assert Names[i] == "cp" && Arity("cp") == (2, None);
      CpArity(n);
    } else if i == 2 {
      assert Names[i] == "exit" && Arity("exit") == (0, Some(0));
      ExitArity(n);
    } else if i == 3 {
      assert Names[i] == "forget" && Arity("forget") == (0, None);
      ForgetArity(n);
    } else if i == 4 {
      assert Names[i] == "get" && Arity("get") == (1, None);
      GetArity(n);
    } else if i == 5 {
      assert Names[i] == "help" && Arity("help") == (0, Some(1));
      HelpArity(n);
    } else if i == 6 {
      assert Names[i] == "lcd" && Arity("lcd") == (0, Some(1));
      LcdArity(n);
    } else if i == 7 {
      assert Names[i] == "ls" && Arity("ls") == (0, None);
      LsArity(n);
    } else if i == 8 {
      assert Names[i] == "media" && Arity("media") == (1, None);
      MediaArity(n);
    } else if i == 9 {
      assert Names[i] == "mkdir" && Arity("mkdir") == (1, None);
      MkdirArity(n);
    } else if i == 10 {
      assert Names[i] == "mv" && Arity("mv") == (2, None);
      MvArity(n);
    } else if i == 11 {
      assert Names[i] == "put" && Arity("put") == (1, Some(2));
      PutArity(n);
    } else if i == 12 {
      assert Names[i] == "rm" && Arity("rm") == (1, None);
      RmArity(n);
    } else {
      assert Names[i] == "share" && Arity("share") == (1, None);
      ShareArity(n);
    }
  }

  /** The argument counts each command accepts, read off its synopsis the
      way `num_args_ok?` does: from the fewest up to the most, with no upper
      bound for a synopsis that has an ellipsis. */
  lemma CommandArity(name: string, n: nat)
    requires name in Names
    ensures NumArgsOk(UsageOf(name).value, n) <==>
              Arity(name).0 <= n && (Arity(name).1 == None || n <= Arity(name).1.value)
  {
    var i :| 0 <= i < |Names| && Names[i] == name;
    ArityAt(i, n);
  }

  // ---------------------------------------------------------------------
  // type_of_arg
  // ---------------------------------------------------------------------

  /** `reject { |arg| arg.include?('-') }` keeps the other tokens in their
      order, each as often as it occurs: filtering a longer list extends the
      filtered shorter one by the new token when it has no `-`. */
  lemma {:induction false} TypedSnoc(a: seq<string>, x: string)
    ensures Typed(a + [x]) == Typed(a) + (if Contains(x, '-') then [] else [x])
    decreases |a|
  {
    if a == [] {
      assert [] + [x] == [x];
      assert [x][1..] == [];
    } else {
      assert (a + [x])[0] == a[0];
      assert (a + [x])[1..] == a[1..] + [x];
      TypedSnoc(a[1..], x);
    }
  }

  /** `exit` takes no argument, so it has no argument type. */
  lemma ExitArgType(i: nat)
    ensures TypeOfArg(UsageOf("exit").value, i) == None
  {
    ExitTokens();
  }

  // ---------------------------------------------------------------------
  // tokenize
  // ---------------------------------------------------------------------

  /** No continuation is pending: the list is empty or its last token does
      not end in a backslash. */
  predicate Settled(list: seq<string>) {
    list == [] || !EndsWith(list[|list| - 1], "\\")
  }

  /** The reduce over a concatenation is the reduce over the second part,
      started from the result of the first. */
  lemma {:induction false} FoldAppend(list: seq<string>, a: seq<string>, b: seq<string>)
    ensures Fold(list, a + b) == Fold(Fold(list, a), b)
    decreases |a|
  {
    if a == [] {
      assert a + b == b;
    } else {
      assert (a + b)[0] == a[0] && (a + b)[1..] == a[1..] + b;
      FoldAppend(Merge(list, a[0]), a[1..], b);
    }
  }

  /** Tokens that do not end in a backslash are taken as they are. */
  lemma {:induction false} FoldPlain(list: seq<string>, tokens: seq<string>)
    requires Settled(list)
    requires forall i :: 0 <= i < |tokens| ==> !EndsWith(tokens[i], "\\")
    ensures Fold(list, tokens) == list + tokens
    decreases |tokens|
  {
    if tokens != [] {
      FoldPlain(list + [tokens[0]], tokens[1..]);
      assert list + [tokens[0]] + tokens[1..] == list + tokens;
    }
  }

  /** Without backslash-terminated words, `tokenize` is `split`. */
  lemma TokenizePlain(s: string)
    requires forall i :: 0 <= i < |SplitWs(s)| ==> !EndsWith(SplitWs(s)[i], "\\")
    ensures Tokenize(s) == SplitWs(s)
  {
    var words := SplitWs(s);
    FoldPlain([], words);
    assert [] + words == words;
    assert Tokenize(s) == Fold([], words);
  }

  /** The reduce never makes an empty token, never makes more tokens than it
      is given, and makes none only from none. */
  lemma {:induction false} FoldShape(list: seq<string>, tokens: seq<string>)
    requires forall i :: 0 <= i < |list| ==> list[i] != []
    requires forall i :: 0 <= i < |tokens| ==> tokens[i] != []
    ensures forall i :: 0 <= i < |Fold(list, tokens)| ==> Fold(list, tokens)[i] != []
    ensures |list| <= |Fold(list, tokens)| <= |list| + |tokens|
    ensures list != [] || tokens != [] ==> Fold(list, tokens) != []
    decreases |tokens|
  {
    if tokens != [] {
      var next := Merge(list, tokens[0]);
      assert forall i :: 0 <= i < |next| ==> next[i] != [];
      FoldShape(next, tokens[1..]);
    }
  }

  /** `tokenize` gives no empty token, at most as many tokens as `split`,
      and none exactly for a blank line. */
  lemma TokenizeShape(s: string)
    ensures forall i :: 0 <= i < |Tokenize(s)| ==> Tokenize(s)[i] != []
    ensures |Tokenize(s)| <= |SplitWs(s)|
    ensures Tokenize(s) == [] <==> SplitWs(s) == []
  {
    FoldShape([], SplitWs(s));
  }

  /** `a\` is one word that ends in a backslash and chops back to `a`. */
  lemma EscapedWord(a: string, x: string)
    requires a != [] && NoSpace(a) && x == a + "\\"
    ensures NoSpace(x) && EndsWith(x, "\\") && Chop(x) == a
  {
    assert forall i :: 0 <= i < |a| ==> x[i] == a[i];
    assert x[|x| - 1..] == "\\";
  }

  /** Folding a backslash word and the next one joins them. */
  lemma FoldEscaped(x: string, b: string, a: string)
    requires x != [] && EndsWith(x, "\\") && Chop(x) == a
    ensures Fold([], [x, b]) == [a + " " + b]
  {
    assert Merge([], x) == [x];
    assert Merge([x], b) == [a + " " + b];
    assert [x, b][1..] == [b];
    assert Fold([x], [b]) == Fold([a + " " + b], []);
  }

  /** A word ending in a backslash is joined to the next by one space. */
  lemma TokenizeEscape(a: string, b: string)
    requires a != [] && NoSpace(a) && b != [] && NoSpace(b)
    ensures Tokenize(a + "\\ " + b) == [a + " " + b]
  {
    var x := a + "\\";
    EscapedWord(a, x);
    assert a + "\\ " + b == x + " " + b;
    SplitWsCons(x, b);
    SplitWsCons(b, "");
    FoldEscaped(x, b, a);
  }

  // ---------------------------------------------------------------------
  // ls: the arguments
  // ---------------------------------------------------------------------

  /** The paths among expanded items, in order. */
  function PathsOf(items: seq<Expansion>): seq<string> {
    if items == [] then []
    else (if items[0].Path? then [items[0].path] else []) + PathsOf(items[1..])
  }

  /** One complaint per pattern that matched nothing, in order. */
  function MissLines(items: seq<Expansion>): seq<string> {
    if items == [] then []
    else
      (if items[0].GlobError? then ["ls: " + items[0].pattern + ": No such file or directory"] else [])
      + MissLines(items[1..])
  }

  /** The entries of `ps` whose flag is `want`, in order. */
  function Pick(ps: seq<string>, flags: seq<bool>, want: bool): seq<string>
    requires |flags| == |ps|
  {
    if ps == [] then []
    else (if flags[0] == want then [ps[0]] else []) + Pick(ps[1..], flags[1..], want)
  }

  /** `files` and `dirs` split `ps` between them, each in the order of `ps`. */
  ghost predicate SplitOf(ps: seq<string>, files: seq<string>, dirs: seq<string>) {
    exists flags: seq<bool> ::
      && |flags| == |ps|
      && files == Pick(ps, flags, false)
      && dirs == Pick(ps, flags, true)
  }

  lemma SplitCons(p: string, ps: seq<string>, d: bool, files: seq<string>, dirs: seq<string>)
    requires SplitOf(ps, files, dirs)
    ensures SplitOf([p] + ps, (if d then [] else [p]) + files, (if d then [p] else []) + dirs)
  {
    var fs :| |fs| == |ps| && files == Pick(ps, fs, false) && dirs == Pick(ps, fs, true);
    var flags := [d] + fs;
    assert ([p] + ps)[1..] == ps;
    assert flags[1..] == fs;
    assert Pick([p] + ps, flags, false) == (if d then [] else [p]) + files;
    assert Pick([p] + ps, flags, true) == (if d then [p] else []) + dirs;
  }

  /** Sorting prints exactly one complaint per pattern that matched nothing,
      in the order of the patterns, and nothing else. */
  lemma {:induction false} ClassifyLines(t: Table, c: Client, pwd: string, items: seq<Expansion>)
    ensures Classify(t, c, pwd, items).lines == MissLines(items)
    decreases |items|
  {
    if items != [] {
      ClassifyLines(ClassifyOne(t, c, pwd, items[0]).table, c, pwd, items[1..]);
    }
  }

  /** Every path lands in exactly one of the two lists, and each list keeps
      the order of the expansion. */
  lemma {:induction false} ClassifySplits(t: Table, c: Client, pwd: string, items: seq<Expansion>)
    ensures SplitOf(PathsOf(items), Classify(t, c, pwd, items).files, Classify(t, c, pwd, items).dirs)
    decreases |items|
  {
    if items == [] {
      assert Pick([], [], false) == [];
    } else {
      var one := ClassifyOne(t, c, pwd, items[0]);
      var more := Classify(one.table, c, pwd, items[1..]);
      var ps := PathsOf(items[1..]);
      ClassifySplits(one.table, c, pwd, items[1..]);
      assert Classify(t, c, pwd, items) == Then(one, more);
      match items[0]
      case GlobError(_) =>
        assert PathsOf(items) == ps;
        assert Classify(t, c, pwd, items).files == more.files;
        assert Classify(t, c, pwd, items).dirs == more.dirs;
      case Path(p) =>
        var d := DirectorySpec(t, c, pwd, p).1;
        assert PathsOf(items) == [p] + ps;
        SplitCons(p, ps, d, more.files, more.dirs);
    }
  }

  /** Dropping every `-l` from a list ending in `-l` drops that one too. */
  lemma {:induction false} WithoutSnoc(s: seq<string>, k: string)
    ensures Hashes.Without(s + [k], k) == Hashes.Without(s, k)
    decreases |s|
  {
    if s == [] {
      assert [] + [k] == [k];
    } else {
      assert (s + [k])[1..] == s[1..] + [k];
      WithoutSnoc(s[1..], k);
    }
  }

  /** Dropping `k` from a list of nothing but `k` leaves nothing. */
  lemma {:induction false} WithoutAll(s: seq<string>, k: string)
    requires forall x :: x in s ==> x == k
    ensures Hashes.Without(s, k) == []
    decreases |s|
  {
    if s != [] {
      assert s[0] in s;
      assert forall x :: x in s[1..] ==> x in s;
      WithoutAll(s[1..], k);
    }
  }

  /** `-l` selects the long form wherever it stands, and is never taken as a
      pattern: one more `-l` changes nothing else. */
  lemma LsFlag(t: Table, c: Client, pwd: string, fnmatch: (string, string) -> bool, args: seq<string>)
    ensures LsSpec(t, c, pwd, fnmatch, args).0 <==> "-l" in args
    ensures LsSpec(t, c, pwd, fnmatch, args + ["-l"]) == (true, LsSpec(t, c, pwd, fnmatch, args).1)
  {
    WithoutSnoc(args, "-l");
  }

  /** With nothing but `-l`, `ls` lists the working directory alone. */
  lemma LsOnlyFlags(t: Table, c: Client, pwd: string, fnmatch: (string, string) -> bool, args: seq<string>)
    requires forall a :: a in args ==> a == "-l"
    ensures LsSpec(t, c, pwd, fnmatch, args).1 == Sorted(t, [], [pwd], [])
  {
    var rest := Hashes.Without(args, "-l");
    WithoutAll(args, "-l");
    assert ExpandWith(t, rest, Expander(c, pwd, fnmatch, true)) == (t, []);
    assert ExpandSpec(t, c, pwd, fnmatch, rest, true) == (t, []);
    assert Classify(t, c, pwd, []) == Sorted(t, [], [], []);
  }

  /** With any other argument, the working directory is not added: the
      directories and files are the expanded paths, split in order, and the
      lines are the complaints about patterns that matched nothing. */
  lemma LsOperands(t: Table, c: Client, pwd: string, fnmatch: (string, string) -> bool, args: seq<string>)
    requires exists a :: a in args && a != "-l"
    ensures var e := ExpandSpec(t, c, pwd, fnmatch, Hashes.Without(args, "-l"), true);
      var r := LsSpec(t, c, pwd, fnmatch, args).1;
      && r.lines == MissLines(e.1)
      && SplitOf(PathsOf(e.1), r.files, r.dirs)
  {
    var rest := Hashes.Without(args, "-l");
    var a :| a in args && a != "-l";
    assert a in rest;
    var e := ExpandSpec(t, c, pwd, fnmatch, rest, true);
    ClassifyLines(e.0, c, pwd, e.1);
    ClassifySplits(e.0, c, pwd, e.1);
  }
}
