# droxi client core in Dafny

droxi is a shell for Dropbox: it keeps a working directory on the remote
side, caches the metadata the Dropbox API returns, expands glob patterns
against that cache, and runs `ls`/`cd`/`cp`/`mv`/`rm`/`mkdir`-style commands
typed at a prompt or given on the command line. This project models the
client-side logic of that shell, with the Dropbox API as a fixed oracle,
and proves what the code promises about it.

One module per source file:

| module | file | what it holds |
|---|---|---|
| `Strings`, `Rewrite`, `Hashes`, `Wrappers` | — | Ruby's string helpers (`downcase`, `split`, `chomp`, `File.dirname`/`basename`), the `sub!`/`gsub!` rewrites used by `resolve_path` and `collapse`, an insertion-ordered `Hash`, and `Option` |
| `Caches`, `CacheProperties` | lib/droxi/cache.rb | the metadata cache as a class over a table from lower-cased path to an entry (the record's own fields plus, for a listed directory, the records of its children); `add`, `remove`, `recursive_remove`, `full_info?` |
| `Session`, `SessionProperties` | lib/droxi/state.rb | the session state as a class: `pwd`/`oldpwd`, `resolve_path`, the root-to-leaf metadata walk, `contents`, `directory?`, glob expansion, `forget_contents` |
| `Commands`, `CommandProperties`, `CommandEffects` | lib/droxi/commands.rb | usage-string arity and argument types, the tokenizer, `try_command`, and the state effects and output of `cd`, `exit`, `forget`, `mkdir`, `rm`, `ls` argument handling, `cp`/`mv` |
| `Complete`, `CompleteProperties` | lib/droxi/complete.rb | `strip_filename`, `collapse`, `remote_search_path`, `remote`, `remote_dir` |
| `Text`, `TextProperties` | lib/droxi/text.rb | `table` and `wrap`, with the terminal width as a parameter |
| `Config` | lib/droxi/settings.rb | the settings store as a class with a dirty flag, the `key=value` parser, `read`'s merge and `save`'s serialisation |
| `Droxi`, `DroxiProperties` | lib/droxi.rb | `join_cmd` and its round trip through `tokenize`, `REENTER` handling, the working directory around an interactive session |
| `LegacyState`, `LegacyCommands`, `LegacySettings` | state.rb, commands.rb, settings.rb | the earlier top-level versions of the state, commands and settings |

Every cache update keeps the cache's invariant `Valid()`: the table's key order
lists each stored key exactly once, and every child a directory entry
lists has a strictly longer path than the directory's key, so following
'contents' lists cannot cycle. Loops of the
source (`resolve_path`'s `sub!` loop, the metadata walk, `forget_contents`,
`wrap`, the argument loops of the commands) are methods proved against
reference functions, and the properties are lemmas about those functions.

## Model

| member | source | states |
|---|---|---|
| Strings.Lower | lib/droxi/state.rb:42 | `downcase` keeps the length and maps each character through ASCII lower-casing |
| Strings.LowerIdempotent | lib/droxi/cache.rb:20 | lower-casing an already lower-cased path changes nothing, so the repeated `downcase` calls agree |
| Strings.LowerKeepsSlashes | lib/droxi/state.rb:42-43 | lower-casing moves no `/`, so splitting a path and splitting its lower-cased form give segments at the same places |
| Strings.Chomp | lib/droxi/state.rb:88 | `chomp('/')` drops exactly one trailing suffix when present and otherwise returns the string unchanged |
| Strings.IndexFrom | lib/droxi/text.rb:58 | the index returned is the first occurrence of the character at or after the start; none means no occurrence |
| Strings.LastIndex | lib/droxi/state.rb:141 | the index returned is the last occurrence of the character; none means no occurrence |
| Strings.Partition | lib/droxi/text.rb:58 | `partition(' ')` gives head, separator and tail that rebuild the string, with no separator in the head; without a separator the tail is empty |
| Strings.RPartition | lib/droxi/text.rb:64 | `rpartition` rebuilds the string with no separator in the tail; without a separator the head is empty and the tail is everything |
| Strings.PrefixThroughSlash | lib/droxi/state.rb:141 | `pattern.rpartition('/')[0, 2].join` is a prefix of the pattern that is empty or ends in `/` |
| Strings.Fields | lib/droxi/state.rb:43 | the pieces between separators rejoin to the string, contain no separator, and the last piece is empty exactly when the string is empty or ends in the separator |
| Strings.TrimEmpty | lib/droxi/state.rb:43 | dropping trailing empty strings keeps a prefix whose last element is non-empty, and only empty strings are dropped |
| Strings.Split | lib/droxi/state.rb:43 | `split('/')` yields fields without `/` and never ends in an empty field |
| Strings.SplitWs | lib/droxi/commands.rb:399 | `split` with no argument yields non-empty tokens free of whitespace |
| Strings.SplitWsCons | lib/droxi/commands.rb:399 | a space-free word followed by a space splits into that word followed by the split of the rest |
| Strings.Squeeze | lib/droxi/commands.rb:31 | `squeeze(' ')` leaves no two adjacent spaces, never lengthens, and keeps the first character |
| Strings.Delete | lib/droxi/commands.rb:56 | `tr('[].', '')` leaves none of the deleted characters and keeps every other character with its multiplicity |
| Strings.LJust | lib/droxi/text.rb:51 | `ljust(width)` has length max(width, length), starts with the item and pads only with spaces |
| Strings.StripSlashes | lib/droxi/complete.rb:71 | the result is a prefix not ending in `/`, and everything dropped was `/` |
| Strings.DirnameShorter | lib/droxi/cache.rb:8-9 | `File.dirname` of an absolute path is absolute, and is the path itself or strictly shorter, so the parent walk in `add` terminates |
| Strings.DirnameOfRoot | lib/droxi/cache.rb:9 | the directory of `/` is `/`, the one case where `dirname != path` fails |
| Strings.DirnameBasename | lib/droxi/cache.rb:8 | a path without trailing slash is its directory, a `/` and its base name (just `/` and the base name under the root) |
| Hashes.Empty | lib/droxi/settings.rb:78 | an empty Ruby `Hash` is well formed (its key order lists each key once) and maps nothing |
| Hashes.Get | lib/droxi/cache.rb:10 | `fetch(k, nil)` returns a value exactly when the key is present, and then the stored one |
| Hashes.Store | lib/droxi/cache.rb:7 | `store` updates the mapping, keeps the key order for a present key and appends a new key at the end, preserving well-formedness |
| Hashes.Remove | lib/droxi/cache.rb:41 | `delete(k)` removes the key from the mapping and keeps the hash well formed |
| Rewrite.GsubDoubleSlash | lib/droxi/state.rb:84 | `gsub!('//', '/')` never lengthens the path, keeps its first character, and leaves a path with no `//` as it is |
| Rewrite.SubDoubleSlash | lib/droxi/state.rb:59 | `sub('//', '/')` shortens by exactly one character when `//` occurs, and changes nothing otherwise |
| Rewrite.DotDotAt | lib/droxi/state.rb:85 | a match of `/([^/]+?)/\.\.` starting at `i` is at least four characters long and lies inside the string |
| Rewrite.SubDotDot | lib/droxi/state.rb:85 | one `sub!` removes at least four characters; when it fails (`nil`) no position matches |
| Rewrite.RemoveDotDots | lib/droxi/state.rb:85 | the `nil while sub!` loop ends at a string no longer than its input where no `/seg/..` matches |
| Rewrite.RepeatSubDotDot | lib/droxi/state.rb:85 | the loop, written as a `while` loop, computes `RemoveDotDots` |
| Rewrite.SubDotSlash | lib/droxi/state.rb:86 | one `sub!('./', '')` removes exactly two characters, and fails exactly when `./` does not occur |
| Rewrite.RemoveDotSlashes | lib/droxi/state.rb:86 | the loop ends at a string holding no `./` |
| Rewrite.RepeatSubDotSlash | lib/droxi/state.rb:86 | the `while` loop computes `RemoveDotSlashes` |
| Rewrite.SubTrailingDot | lib/droxi/state.rb:87 | a final `/.` is dropped, and a string without one is unchanged |
| Rewrite.SegUpAt | lib/droxi/complete.rb:81 | a match of `[^\/]+\/\.\.\/` starting at `i` is at least five characters long and lies inside the string |
| Rewrite.SubSegUp | lib/droxi/complete.rb:81 | one `sub!` replacing `seg/../` with `/` shortens by at least four; when it fails no position matches |
| Rewrite.RemoveSegUps | lib/droxi/complete.rb:81 | the loop of `collapse` ends at a string where no `seg/../` matches |
| Rewrite.RepeatSubSegUp | lib/droxi/complete.rb:81 | the `while` loop computes `RemoveSegUps` |
| Caches.Infos | lib/droxi/cache.rb:11 | the scalar fields of each record, one per record, in order (what a parent's `contents` list holds) |
| Caches.LinkValid | lib/droxi/cache.rb:8-12 | linking a record with an absolute path into its parent keeps the cache invariant (links lead to longer keys) |
| Caches.AddSpec | lib/droxi/cache.rb:5-16 | `add(m)` stores exactly the keys of `m` and of everything nested in it, and keeps the invariant for well-formed records |
| Caches.AddAll | lib/droxi/cache.rb:14 | adding a list of records stores exactly their keys and keeps the invariant |
| Caches.RecRemove | lib/droxi/cache.rb:37-42 | `recursive_remove(p)` only deletes keys, deletes `p`, and keeps the invariant |
| Caches.RecRemoveAll | lib/droxi/cache.rb:40 | removing each listed item in turn only deletes keys and keeps the invariant |
| Caches.DropKey | lib/droxi/cache.rb:23 | `delete_if`: an item stays exactly when its lower-cased path is not the removed one |
| Caches.RemoveSpec | lib/droxi/cache.rb:19-25 | after `remove(path)` the lower-cased path is gone and the invariant holds |
| Caches.FullInfoIn | lib/droxi/cache.rb:28-32 | an uncached path never has full information; a cached file always does, and so does a cached directory when contents are not required; a directory with full information for a listing has its contents |
| Caches.Cache.constructor | lib/droxi/cache.rb:2 | a new cache is empty and valid |
| Caches.Cache.Lookup | lib/droxi/cache.rb:30 | `fetch(path, nil)`: present exactly when the key is stored, and then the stored entry |
| Caches.Cache.FullInfo | lib/droxi/cache.rb:28-32 | the object's `full_info?` answers `FullInfoIn` for its current table |
| Caches.Cache.Add | lib/droxi/cache.rb:5-16 | the method updates the table in place to `AddSpec` of the old table and keeps the invariant |
| Caches.Cache.LinkToParent | lib/droxi/cache.rb:8-12 | the in-place step of `add` that appends the record to its parent's 'contents' computes `Link` of the old table and keeps the invariant |
| Caches.Cache.RecursiveRemove | lib/droxi/cache.rb:37-42 | the recursive method leaves the table equal to `RecRemove` of the old one |
| Caches.Cache.Remove | lib/droxi/cache.rb:19-25 | the method leaves the table equal to `RemoveSpec` of the old one |
| Caches.Cache.Put | lib/droxi/commands.rb:272 | `cache[key] = e` stores the entry under the key and changes nothing else |
| Caches.Cache.Delete | lib/droxi/commands.rb:327 | `cache.delete(key)` drops that key only |
| Caches.Cache.Clear | lib/droxi/commands.rb:130 | `cache.clear` leaves an empty cache |
| CacheProperties.KeySetBound | lib/droxi/cache.rb:13-14 | every key `add(m)` stores is at least as long as `m`'s, and nested ones are longer |
| CacheProperties.AddFrame | lib/droxi/cache.rb:5-16 | `add(m)` leaves every entry it neither stores nor links into exactly as it was |
| CacheProperties.AddAllFrame | lib/droxi/cache.rb:14 | the same for a list of records |
| CacheProperties.AddStores | lib/droxi/cache.rb:6-7 | after `add(m)` the entry under `m`'s lower-cased path is `m` |
| CacheProperties.AddParent | lib/droxi/cache.rb:8-12 | the parent gains `m` at the end of its `contents` exactly when it is cached with a list that lacks `m`; otherwise it is unchanged, and an absent parent stays absent |
| CacheProperties.AddAgainNoDuplicate | lib/droxi/cache.rb:11 | adding the same record twice leaves the parent's `contents` as after the first add |
| CacheProperties.AddLeafAlone | lib/droxi/cache.rb:8-13 | a file record whose parent is absent or has no `contents` changes only its own key |
| CacheProperties.RootNoSelfLink | lib/droxi/cache.rb:9 | storing the root never links it into itself, since the dirname of `/` is `/` |
| CacheProperties.RecRemoveClosed | lib/droxi/cache.rb:37-42 | every link of a deleted entry is deleted too, and every deleted key is `p` or linked from another deleted key |
| CacheProperties.RecRemoveAllClosed | lib/droxi/cache.rb:40 | the same closure for the loop over a `contents` list, and each listed item is gone |
| CacheProperties.RecRemoveSpares | lib/droxi/cache.rb:37-42 | a key in a set closed under incoming links that does not hold `p` survives `recursive_remove(p)` unchanged: nothing is deleted that `p` does not reach |
| CacheProperties.RemoveEffect | lib/droxi/cache.rb:19-25 | `remove` deletes what `recursive_remove` deletes; the parent keeps its fields and its `contents` loses exactly the items with that path; every other entry is unchanged |
| CacheProperties.DeletedLonger | lib/droxi/cache.rb:37-42 | no key shorter than `p` is deleted |
| CacheProperties.RemoveKeepsShorter | lib/droxi/cache.rb:19-25 | `remove(q)` adds no key and keeps every shorter key with its fields |
| CacheProperties.SiblingSurvives | lib/droxi/cache.rb:37-42 | a sibling of `p` linked only from an unlinked parent survives `recursive_remove(p)` unchanged, whatever its name (a name with `p` as a prefix included) |
| CacheProperties.DirOfThree | spec/cache_spec.rb:37-43 | adding a directory that lists three distinct files gives a cache of size 4 |
| CacheProperties.RemoveOnlyFile | spec/cache_spec.rb:47-51 | adding one file and removing it leaves the cache empty |
| CacheProperties.AddEmptyDir | spec/cache_spec.rb:24-25 | adding an empty directory stores just that directory with an empty `contents` |
| CacheProperties.AddFileToDir | spec/cache_spec.rb:24-28 | adding a file under it appends the file to the directory's `contents` (size 1) |
| CacheProperties.RemoveLeafOfDir | spec/cache_spec.rb:53-58 | removing that file leaves the directory with empty `contents` |
| CacheProperties.RemoveDirOfLeaf | spec/cache_spec.rb:60-65 | removing the directory instead leaves the cache empty |
| CacheProperties.RemoveFileFromDir | spec/cache_spec.rb:53-58 | the same, starting from the empty cache |
| CacheProperties.RemoveDirRecursively | spec/cache_spec.rb:60-65 | the same, starting from the empty cache |
| CacheProperties.FullInfoAfterAdd | lib/droxi/cache.rb:28-32 | right after `add(m)`, `full_info?` holds exactly when contents are not required, `m` is a file, or `m` came with `contents` |
| Session.Resolve | lib/droxi/state.rb:81-91 | `resolve_path` never returns the empty string: an empty result becomes `/` |
| Session.Prefixes | lib/droxi/state.rb:43-46 | the partial paths walked by `metadata` are one more than the tokens, start at `/`, and the `i`-th is `/` joined with the first `i` tokens |
| Session.FetchStep | lib/droxi/state.rb:122-129 | `fetch_metadata` succeeds exactly when the client does not raise; a deleted or failed lookup leaves the cache unchanged; a well-formed answer keeps the cache valid |
| Session.Walk | lib/droxi/state.rb:45-49 | the walk queries only listed prefixes, keeps the cache valid, and succeeds exactly when none of the queried lookups failed |
| Session.WalkStep | lib/droxi/state.rb:47-48 | one round: a prefix with full info is skipped (`next`), a failed fetch stops the walk (`return nil`), a successful one goes on with the updated cache |
| Session.MetadataSpec | lib/droxi/state.rb:41-52 | a returned entry is the cached entry of the lower-cased path; `nil` means a fetch failed or the path is not cached afterwards |
| Session.ChildPaths | lib/droxi/state.rb:60-62 | the selected keys are those one level below the directory, and the result is their `path` fields, no more than the keys |
| Session.ContentsSpec | lib/droxi/state.rb:55-63 | `contents` lists exactly the `path` fields of the cached entries one level below the resolved directory, after fetching it; the cache stays valid |
| Session.DirectorySpec | lib/droxi/state.rb:66-71 | `directory?` holds exactly when the resolved path is cached as a directory after its parent was fetched |
| Session.Matching | lib/droxi/state.rb:136-138 | the selected entries are exactly those `fnmatch` accepts against the lower-cased pattern, in order |
| Session.Reprefix | lib/droxi/state.rb:142 | each match keeps its base name behind the pattern's own directory prefix |
| Session.Paths | lib/droxi/state.rb:141-142 | the matches become path items, one per match, in order |
| Session.GetMatchesSpec | lib/droxi/state.rb:133-143 | `get_matches` yields one `GlobError` for the pattern, or only paths, never nothing; the cache stays valid |
| Session.ExpandOne | lib/droxi/state.rb:97-102 | each pattern contributes at least one item (a path or a `GlobError`) and keeps the cache valid |
| Session.ExpandSpec | lib/droxi/state.rb:95-104 | `expand_patterns` keeps the cache valid across all patterns |
| Session.ExpandKeepsValid | lib/droxi/state.rb:96 | the `flat_map` over patterns keeps the cache valid, pattern by pattern |
| Session.ExpandWith | lib/droxi/state.rb:96-103 | `flat_map` over no pattern gives nothing and leaves the cache; otherwise the first pattern's items come first, before those of the later patterns |
| Session.RemoveEach | lib/droxi/state.rb:111 | removing each listed path leaves a valid cache, adds no key, and none of the listed paths remains |
| Session.RemoveEachKeeps | lib/droxi/state.rb:111 | removing paths strictly below `k` keeps `k` and its fields |
| Session.ForgetSpec | lib/droxi/state.rb:108-116 | a cached directory with contents loses its `contents` and every listed child, yielding no line; anything else yields the one `nothing to forget` line and changes nothing |
| Session.State.constructor | lib/droxi/state.rb:29-37 | a new state has an empty cache, `pwd` at the root, `oldpwd` from the saved setting or `/`, and neither exit nor debug requested |
| Session.State.SetPwd | lib/droxi/state.rb:75-78 | `pwd=` makes the old `pwd` the `oldpwd` and stores it as the `oldpwd` setting: the store gains exactly that key and becomes dirty, unless the setting already held that value, when store and dirty flag stay as they were; nothing else changes |
| Session.State.ResolvePath | lib/droxi/state.rb:81-91 | the method runs the rewriting loops and returns `Resolve(pwd, arg)` |
| Session.State.FetchMetadata | lib/droxi/state.rb:122-129 | the cache and result are those of `FetchStep` |
| Session.State.Visit | lib/droxi/state.rb:46-48 | a prefix with full info is skipped with the cache unchanged; any other is fetched as `FetchStep` says |
| Session.State.Metadata | lib/droxi/state.rb:41-52 | the loop over prefixes produces the cache and entry of `MetadataSpec` |
| Session.State.Contents | lib/droxi/state.rb:55-63 | the cache and listing are those of `ContentsSpec` |
| Session.State.IsDirectory | lib/droxi/state.rb:66-71 | the cache and answer are those of `DirectorySpec` |
| Session.State.GetMatches | lib/droxi/state.rb:133-143 | the cache and items are those of `GetMatchesSpec` |
| Session.State.ExpandPattern | lib/droxi/state.rb:97-102 | the block for one pattern gives the cache and items of `ExpandOne` |
| Session.State.ExpandPatterns | lib/droxi/state.rb:95-104 | the loop over patterns gives the cache and items of `ExpandSpec` |
| Session.State.RemoveLinks | lib/droxi/state.rb:111 | the loop removing each listed child leaves the cache of `RemoveEach` |
| Session.State.ForgetContents | lib/droxi/state.rb:108-116 | the cache and yielded lines are those of `ForgetSpec` |
| SessionProperties.LeftmostAt | lib/droxi/state.rb:85 | `sub!` acts on the first match: a position that matches with nothing before it is the leftmost |
| SessionProperties.NoDotDotPair | lib/droxi/state.rb:85 | text without `..` gives the `/seg/..` loop nothing to remove |
| SessionProperties.NoDotSlash | lib/droxi/state.rb:86 | dot-free text holds no `./` |
| SessionProperties.ResolveNormal | lib/droxi/state.rb:83-90 | an absolute path that none of the rewrites touch resolves to itself, whatever the working directory |
| SessionProperties.ResolvePlain | lib/droxi/state.rb:83-90 | an absolute path without dots, doubled slashes or a trailing slash resolves to itself |
| SessionProperties.ResolveAbsolute | lib/droxi/state.rb:83 | an absolute argument resolves the same under every working directory |
| SessionProperties.ResolveRelative | lib/droxi/state.rb:83 | a relative argument resolves as the absolute path `pwd/arg` |
| SessionProperties.ResolveRoot | spec/state_spec.rb:36-38 | `/` resolves to itself under any working directory |
| SessionProperties.SegmentPath | spec/state_spec.rb:45-47 | appending `/name` for a plain name to a plain path keeps it plain |
| SessionProperties.ResolveQualified | spec/state_spec.rb:40-43 | under `/a`, `/b` resolves to `/b`, for every pair of plain names |
| SessionProperties.ResolveUnqualified | spec/state_spec.rb:45-48 | under `/a`, `b` resolves to `/a/b`, for every pair of plain names |
| SessionProperties.ResolveVia | lib/droxi/state.rb:84-90 | when removing `/seg/..` pairs leaves a plain path, that path is the result |
| SessionProperties.TrailingDotOnly | lib/droxi/state.rb:86-87 | after `/a` the appended `/.` is left for the trailing-dot rule, not the `./` loop |
| SessionProperties.ResolveDot | spec/state_spec.rb:50-53 | under `/a`, `.` resolves to `/a`, for every plain name |
| SessionProperties.SubDotDotPair | lib/droxi/state.rb:85 | in `p/g/..r` with `p` dot-free and `g` a plain name, the first `/seg/..` removed is `/g/..` |
| SessionProperties.RemovePair | lib/droxi/state.rb:85 | the `/seg/..` loop on `p/g/..r` ends where the loop on `p + r` ends |
| SessionProperties.TwoDotDots | lib/droxi/state.rb:85 | `/a/b/g/../..` collapses to `/a` |
| SessionProperties.UpTwiceNoDoubleSlash | lib/droxi/state.rb:84 | `pwd/../..` has no `//` for a plain `pwd`, so the first `gsub!` leaves it alone |
| SessionProperties.ResolveDotDot | spec/state_spec.rb:55-58 | under `/a/b/g`, `../..` resolves to `/a`, for every three plain names |
| SessionProperties.FieldsOfAbsolute | lib/droxi/state.rb:43 | splitting an absolute path on `/` gives an empty first field and at least one more |
| SessionProperties.JoinPrefix | lib/droxi/state.rb:46 | joining a prefix of the tokens gives a prefix of joining all of them |
| SessionProperties.PrefixesOfPath | lib/droxi/state.rb:45-46 | every partial path walked by `metadata` is a prefix of the path |
| SessionProperties.FieldsOfTokens | lib/droxi/state.rb:43 | the tokens are the fields after the root's empty field |
| SessionProperties.LastPrefixIsPath | lib/droxi/state.rb:45-46 | the last partial path walked is the path itself when it has no trailing `/` |
| SessionProperties.WalkAllCached | lib/droxi/state.rb:47 | when every prefix has full info, the client is never called and the cache is unchanged |
| SessionProperties.MetadataCached | lib/droxi/state.rb:47-51 | `metadata` of a path whose prefixes all have full info is the cached entry, without a fetch |
| SessionProperties.MetadataRootFails | lib/droxi/state.rb:48 | a failing lookup of an uncached root makes `metadata` return `nil` and cache nothing |
| SessionProperties.WalkSkipsDeleted | lib/droxi/state.rb:124 | a prefix the client reports deleted counts as fetched: the walk goes on with the cache unchanged |
| SessionProperties.ExpandAppend | lib/droxi/state.rb:96 | expanding `a + b` is expanding `a` then `b` from the cache `a` left, results concatenated |
| SessionProperties.ExpandDirectory | lib/droxi/state.rb:98-99 | a pattern resolving to a directory yields itself with `preserve_root` and its resolved path without |
| SessionProperties.ExpandNoMatch | lib/droxi/state.rb:139 | when no listed entry matches, the pattern yields exactly one `GlobError` for itself |
| SessionProperties.NothingMatches | lib/droxi/state.rb:136-138 | when `fnmatch` accepts no entry, the selection is empty |
| SessionProperties.ExpandMatches | lib/droxi/state.rb:136-140 | without `preserve_root`, a path is produced exactly when it is listed in the directory and matches |
| SessionProperties.ReprefixRelative | lib/droxi/state.rb:141-142 | with `preserve_root`, a match for a pattern without `/` comes back as its bare name |
| SessionProperties.RemoveEachGone | lib/droxi/state.rb:111 | removing the listed paths drops, with every dropped entry, every entry it listed: no descendant of a removed path stays cached |
| SessionProperties.RemoveEachSpares | lib/droxi/state.rb:111 | an entry in a set that holds none of the removed paths, where nothing outside the set lists a member, keeps its fields unless it is a removed path's parent |
| SessionProperties.ForgetDescendantsGone | lib/droxi/state.rb:108-116 | `forget_contents` drops the whole subtree below the directory: every entry a dropped entry listed is dropped too |
| SessionProperties.ForgetSpares | lib/droxi/state.rb:108-116 | every entry outside the dropped subtrees, other than the directory itself, keeps its fields |
| SessionProperties.ForgetTwice | spec/state_spec.rb:80-85 | forgetting a path a second time yields one line and changes nothing |
| Commands.NewCommand | lib/droxi/commands.rb:29-33 | a command keeps its usage verbatim, and its description has no two adjacent spaces and is no longer than the text given |
| Commands.Required | lib/droxi/commands.rb:66 | the minimum argument count is at most the number of usage tokens |
| Commands.Exec | lib/droxi/commands.rb:38-45 | the procedure runs exactly when `num_args_ok?` accepts the argument count; otherwise the result is a `UsageError` carrying the usage |
| Commands.NumArgsOk | lib/droxi/commands.rb:64-75 | a usage with no argument words accepts exactly zero arguments; one with a `...` word accepts any count from the number of required words up; otherwise the count must lie between the required words and all words |
| Commands.Typed | lib/droxi/commands.rb:51 | the kept usage tokens are exactly those without `-`, in order |
| Commands.TypeOfArg | lib/droxi/commands.rb:50-58 | `nil` exactly when every usage token holds `-`; otherwise the type is the typed token (one without `-`) at the index, any index from the last on giving the last one, with `[`, `]` and `.` deleted |
| Commands.ArgTypeAt | lib/droxi/commands.rb:52-57 | `nil` exactly when there is no typed token; an index within the tokens picks that token, and any index from the last on picks the last, each with `[`, `]` and `.` deleted |
| Commands.UsageOf | lib/droxi/commands.rb:356-358 | a usage synopsis exists exactly for the command names |
| Commands.TryCommand | lib/droxi/commands.rb:383-394 | a known name with an accepted count runs with those arguments; a known name otherwise prints `Usage: ` and its usage; an unknown name prints `droxi: NAME: command not found` |
| Commands.Chop | lib/droxi/commands.rb:401 | `chop` drops exactly the last character |
| Commands.Merge | lib/droxi/commands.rb:399-405 | after a token ending in `\` the next token is joined to it by one space with the backslash dropped; otherwise the token is appended |
| Commands.Tokenize | lib/droxi/commands.rb:398-406 | a line gives no more tokens than whitespace-separated words, and none exactly when it has no word |
| Commands.Parse | lib/droxi/commands.rb:361-369 | `!` input goes to the shell with the rest of the line; empty input does nothing; anything else runs the first token as the name with the rest as arguments |
| Commands.Cd | lib/droxi/commands.rb:85-98 | no argument goes to `/`; `-` swaps `pwd` and `oldpwd`; a directory is entered with the old `pwd` saved; on each move the settings store gains `oldpwd` and turns dirty unless it already held that value, when store and dirty flag stay; anything else outputs `Not a directory` with `pwd`, `oldpwd`, the settings store and its dirty flag unchanged |
| Commands.Exit | lib/droxi/commands.rb:117-119 | `exit` sets `exit_requested` and changes nothing else |
| Commands.ForgetAll | lib/droxi/commands.rb:132-134 | forgetting each argument keeps the cache valid and outputs at most one line per argument, each the `nothing to forget` line of one of them |
| Commands.Forget | lib/droxi/commands.rb:128-136 | no argument clears the whole cache silently; otherwise the cache and output are those of `ForgetAll` |
| Commands.MkdirAll | lib/droxi/commands.rb:268-274 | `mkdir` over all arguments keeps the cache valid |
| Commands.MakeFolder | lib/droxi/commands.rb:269-273 | one argument: the client's result is stored under the resolved path only when the call succeeds; a failure outputs its message |
| Commands.Mkdir | lib/droxi/commands.rb:266-275 | the loop over arguments gives the cache and output of `MkdirAll` |
| Commands.RmOneAsWritten | lib/droxi/commands.rb:321-330 | as written: a `GlobError` prints one line; a path is dropped with `Hash#delete` only after `file_delete` succeeds; the cache stays valid |
| Commands.RmOne | lib/droxi/commands.rb:321-330 | with `Cache#remove` as the cache update, one item keeps the cache valid |
| Commands.RmAll | lib/droxi/commands.rb:321 | `rm` over all items, in order, with `Cache#remove` as the cache update, keeps the cache valid |
| Commands.RmItem | lib/droxi/commands.rb:322-329 | the method gives the cache and output of `RmOne` |
| Commands.RmItems | lib/droxi/commands.rb:321-330 | the loop over items gives the cache and output of `RmAll` |
| Commands.Rm | lib/droxi/commands.rb:316-331 | the patterns are expanded without preserving roots, then the items are removed as `RmAll` says, with `Cache#remove` as the cache update |
| Commands.Report | lib/droxi/commands.rb:441-448 | the kept paths are exactly the `Path` items; there is one `no such file or directory` line per `GlobError`, naming its pattern; together they account for every item |
| Commands.Expand | lib/droxi/commands.rb:440-449 | `expand` always expands with roots preserved, then reports as `Report` says |
| Commands.SendCalls | lib/droxi/commands.rb:456 | `copy_move` calls `file_copy` for `cp` and `file_move` for `mv`, with the resolved paths |
| Commands.CopyMoveAsWritten | lib/droxi/commands.rb:453-460 | as written: a successful move drops the source path with `Hash#delete`; the cache stays valid |
| Commands.CopyMoveSpec | lib/droxi/commands.rb:453-460 | with `Cache#remove` for the source of a move, `copy_move` keeps the cache valid |
| Commands.CopyMove | lib/droxi/commands.rb:453-460 | the method gives the cache and output of `CopyMoveSpec` |
| Commands.TargetShape | lib/droxi/commands.rb:472 | the target of a source copied into a directory starts with the destination chomped of one `/` and then `/`, ends with the source's basename, and has no other characters |
| Commands.CopyEach | lib/droxi/commands.rb:471-474 | copying each source to `last.chomp('/') + '/' + basename`, with `Cache#remove` for the source of a move, keeps the cache valid |
| Commands.CopyAll | lib/droxi/commands.rb:471-474 | the loop over sources gives the cache and output of `CopyEach` |
| Commands.IntoSpec | lib/droxi/commands.rb:470-478 | each source goes into the destination only when it has metadata; otherwise one `no such directory` line is output; the cache stays valid |
| Commands.Into | lib/droxi/commands.rb:470-478 | the method gives the cache and output of `IntoSpec` |
| Commands.SingleSpec | lib/droxi/commands.rb:468-469 | one source keeps the cache valid, whether it goes into a directory destination or to the destination as typed |
| Commands.SingleSpecCases | lib/droxi/commands.rb:468-469 | a single source goes into the destination when that is a directory and to the destination itself otherwise, and either way the cache stays valid |
| Commands.Single | lib/droxi/commands.rb:468-469 | the method gives the cache and output of `SingleSpec` |
| Commands.DispatchSpec | lib/droxi/commands.rb:468-479 | the copies or moves after expansion, with `Cache#remove` for the source of a move, keep the cache valid |
| Commands.Dispatch | lib/droxi/commands.rb:468-479 | the method gives the cache and output of `DispatchSpec` |
| Commands.CpMv | lib/droxi/commands.rb:464-480 | the method gives the cache and output of `CpMvSpec`: the expansion report first, then the copies or moves |
| Commands.ClassifyOne | lib/droxi/commands.rb:220-225 | a pattern that matched nothing gives exactly the line `ls: P: No such file or directory` and leaves the cache alone; a path goes to the directories exactly when `directory?` says so and to the files otherwise, with no line; the cache stays valid |
| Commands.Classify | lib/droxi/commands.rb:219-226 | sorting the items in order keeps the cache valid |
| Commands.ClassifyItem | lib/droxi/commands.rb:220-225 | the method gives the result of `ClassifyOne` and leaves the cache it computed |
| Commands.ClassifyAll | lib/droxi/commands.rb:219-226 | the loop gives the result of `Classify` |
| Commands.LsSpec | lib/droxi/commands.rb:216-228 | the long form is selected exactly when `-l` is among the arguments, and the cache stays valid |
| Commands.LsArguments | lib/droxi/commands.rb:216-228 | the method gives the long flag and the sorted items of `LsSpec`, whose meaning `CommandProperties.LsFlag`, `LsOnlyFlags` and `LsOperands` state |
| CommandProperties.SplitJoin | lib/droxi/commands.rb:65 | words without whitespace joined by single spaces split back into the same words |
| CommandProperties.Words2 | lib/droxi/commands.rb:65 | the argument part of a two-word synopsis is its second word |
| CommandProperties.Words3 | lib/droxi/commands.rb:65 | the argument part of a three-word synopsis is its last two words, in order |
| CommandProperties.Bracketed | lib/droxi/commands.rb:66 | an argument counts as optional exactly when its first character is `[` |
| CommandProperties.Dotted | lib/droxi/commands.rb:69 | an argument ending in `...` ends in a dot |
| CommandProperties.NoArgs | lib/droxi/commands.rb:64-75 | a synopsis without arguments accepts exactly zero arguments |
| CommandProperties.OneOptional | lib/droxi/commands.rb:64-75 | a single optional argument without ellipsis accepts zero or one argument |
| CommandProperties.AnyNumber | lib/droxi/commands.rb:64-75 | a single optional repeated argument accepts any number of arguments |
| CommandProperties.AnyNumber2 | lib/droxi/commands.rb:64-75 | two optional arguments, the last repeated, accept any number of arguments |
| CommandProperties.OneOrMore | lib/droxi/commands.rb:64-75 | a single required repeated argument accepts one or more arguments and rejects none |
| CommandProperties.ManyThenOne | lib/droxi/commands.rb:64-75 | a required repeated argument followed by a required one accepts two or more arguments |
| CommandProperties.OneThenOptional | lib/droxi/commands.rb:64-75 | a required argument followed by an optional one accepts one or two arguments |
| CommandProperties.CdTokens | lib/droxi/commands.rb:80 | the argument words of the `cd` synopsis are read off its usage string |
| CommandProperties.CdArity | lib/droxi/commands.rb:64-75 | `cd` accepts at most one argument (an optional directory) and rejects every other count |
| CommandProperties.CpTokens | lib/droxi/commands.rb:103 | the argument words of the `cp` synopsis are read off its usage string |
| CommandProperties.CpArity | lib/droxi/commands.rb:64-75 | `cp` accepts at least two arguments (one or more sources and a destination) and rejects every other count |
| CommandProperties.ExitTokens | lib/droxi/commands.rb:115 | the argument words of the `exit` synopsis are read off its usage string |
| CommandProperties.ExitArity | lib/droxi/commands.rb:64-75 | `exit` accepts no argument at all and rejects every other count |
| CommandProperties.ForgetTokens | lib/droxi/commands.rb:124 | the argument words of the `forget` synopsis are read off its usage string |
| CommandProperties.ForgetArity | lib/droxi/commands.rb:64-75 | `forget` accepts any number of arguments: its synopsis ends in an ellipsis and has no required argument |
| CommandProperties.GetTokens | lib/droxi/commands.rb:141 | the argument words of the `get` synopsis are read off its usage string |
| CommandProperties.GetArity | lib/droxi/commands.rb:64-75 | `get` accepts at least one argument and rejects every other count |
| CommandProperties.HelpTokens | lib/droxi/commands.rb:163 | the argument words of the `help` synopsis are read off its usage string |
| CommandProperties.HelpArity | lib/droxi/commands.rb:64-75 | `help` accepts at most one argument and rejects every other count |
| CommandProperties.LcdTokens | lib/droxi/commands.rb:184 | the argument words of the `lcd` synopsis are read off its usage string |
| CommandProperties.LcdArity | lib/droxi/commands.rb:64-75 | `lcd` accepts at most one argument and rejects every other count |
| CommandProperties.LsTokens | lib/droxi/commands.rb:209 | the argument words of the `ls` synopsis are read off its usage string |
| CommandProperties.LsArity | lib/droxi/commands.rb:64-75 | `ls` accepts any number of arguments: its synopsis ends in an ellipsis and has no required argument |
| CommandProperties.MediaTokens | lib/droxi/commands.rb:247 | the argument words of the `media` synopsis are read off its usage string |
| CommandProperties.MediaArity | lib/droxi/commands.rb:64-75 | `media` accepts at least one argument and rejects every other count |
| CommandProperties.MkdirTokens | lib/droxi/commands.rb:266 | the argument words of the `mkdir` synopsis are read off its usage string |
| CommandProperties.MkdirArity | lib/droxi/commands.rb:64-75 | `mkdir` accepts at least one argument and rejects every other count |
| CommandProperties.MvTokens | lib/droxi/commands.rb:280 | the argument words of the `mv` synopsis are read off its usage string |
| CommandProperties.MvArity | lib/droxi/commands.rb:64-75 | `mv` accepts at least two arguments (one or more sources and a destination) and rejects every other count |
| CommandProperties.PutTokens | lib/droxi/commands.rb:292 | the argument words of the `put` synopsis are read off its usage string |
| CommandProperties.PutArity | lib/droxi/commands.rb:64-75 | `put` accepts one or two arguments and rejects every other count |
| CommandProperties.RmTokens | lib/droxi/commands.rb:318 | the argument words of the `rm` synopsis are read off its usage string |
| CommandProperties.RmArity | lib/droxi/commands.rb:64-75 | `rm` accepts at least one argument and rejects every other count |
| CommandProperties.ShareTokens | lib/droxi/commands.rb:336 | the argument words of the `share` synopsis are read off its usage string |
| CommandProperties.ShareArity | lib/droxi/commands.rb:64-75 | `share` accepts at least one argument and rejects every other count |
| CommandProperties.ArityAt | lib/droxi/commands.rb:64-75 | for the command at each place of the table, the usage check accepts exactly the counts between its least and greatest number of arguments |
| CommandProperties.CommandArity | lib/droxi/commands.rb:64-75 | for every command, the usage check accepts exactly the counts between the command's least and greatest number of arguments, the greatest being unbounded for a repeated argument |
| CommandProperties.TypedSnoc | lib/droxi/commands.rb:51 | the tokens without `-` are kept in their order and each as often as it occurs: one more token extends the kept list by that token exactly when it has no `-` |
| CommandProperties.ExitArgType | lib/droxi/commands.rb:50-58 | a command without arguments has no argument type at any index |
| CommandProperties.FoldAppend | lib/droxi/commands.rb:399-405 | merging escaped tokens over two lists in turn is merging over their concatenation |
| CommandProperties.FoldPlain | lib/droxi/commands.rb:399-405 | tokens that do not end in a backslash are appended unchanged to a list whose last token does not either |
| CommandProperties.TokenizePlain | lib/droxi/commands.rb:398-406 | a line none of whose words ends in a backslash tokenizes into its whitespace-separated words |
| CommandProperties.FoldShape | lib/droxi/commands.rb:399-405 | merging never makes an empty token, keeps at least the tokens it started with, adds at most one per word, and leaves a list empty only if it and the words were |
| CommandProperties.TokenizeShape | lib/droxi/commands.rb:398-406 | tokens are never empty, there are no more tokens than words, and there are none exactly for a blank line |
| CommandProperties.TokenizeEscape | lib/droxi/commands.rb:398-406 | a backslash before a space joins the two words around it into one token holding the space |
| CommandProperties.ClassifyLines | lib/droxi/commands.rb:219-222 | sorting the items prints exactly one `ls: P: No such file or directory` line per pattern that matched nothing, in order, and no other line |
| CommandProperties.ClassifySplits | lib/droxi/commands.rb:219-225 | every path lands in exactly one of the directories and the files, each list in the order of the expansion |
| CommandProperties.LsFlag | lib/droxi/commands.rb:216 | the long form is selected exactly when `-l` is among the arguments, and one more `-l` changes nothing else: `-l` never reaches the expansion |
| CommandProperties.LsOnlyFlags | lib/droxi/commands.rb:228 | with nothing but `-l`, the working directory is the only thing listed, with no line and the cache unchanged |
| CommandProperties.LsOperands | lib/droxi/commands.rb:218-228 | with any other argument, the working directory is not added: the lines are the complaints about patterns that matched nothing, and the files and directories split the expanded paths in order |
| CommandEffects.RmAsWrittenKeepsEntry | lib/droxi/commands.rb:326-327 | as written, a successful `rm` of a path typed in mixed case leaves the entry cached under its lower-cased key |
| CommandEffects.RmAsWrittenKeepsLink | lib/droxi/commands.rb:326-327 | as written, a successful `rm` leaves the deleted record listed in its parent's cached contents |
| CommandEffects.RmAsWrittenKeepsDescendants | lib/droxi/commands.rb:326-327 | as written, a successful `rm` of a directory drops only its own key: every other cached entry, its descendants included, stays unchanged |
| CommandEffects.RmForgetsPath | lib/droxi/commands.rb:326-327 | with the cache's own removal, a successful `rm` leaves no entry for the path in any letter case and no link to it in its parent's contents |
| CommandEffects.MvAsWrittenKeepsEntry | lib/droxi/commands.rb:456-458 | as written, a successful `mv` of a source typed in mixed case leaves the source's lower-cased entry in the cache |
| CommandEffects.MvForgetsSource | lib/droxi/commands.rb:456-458 | with the cache's own removal, a successful `mv` leaves no entry for the source in any letter case, unless the moved record itself re-adds it |
| CommandEffects.RmOutput | lib/droxi/commands.rb:321-330 | `rm` outputs, in order, a line for each pattern that matched nothing and the client's error for each failed deletion, and nothing else, whatever the cache holds |
| CommandEffects.RmReportsGlobErrors | lib/droxi/commands.rb:322-323 | every pattern that matched nothing is reported, wherever it stands among the items |
| CommandEffects.RmLinesExplained | lib/droxi/commands.rb:321-330 | each line `rm` outputs comes from one of its items |
| CommandEffects.CopyLines | lib/droxi/commands.rb:471-474 | copying or moving into a directory gives exactly one line per source |
| CommandEffects.CopyLineAt | lib/droxi/commands.rb:471-474 | line `i` reports source `i` copied or moved to the directory's path, chomped of one `/`, followed by `/` and the source's basename |
| CommandEffects.CopyMoveOutput | lib/droxi/commands.rb:453-460 | one copy or move outputs exactly one line: `source -> dest` on success, the client's error otherwise |
| CommandEffects.CopyEachOutput | lib/droxi/commands.rb:471-474 | copying or moving several sources into a directory outputs one line per source, in order, whatever the cache holds |
| CommandEffects.IntoMissing | lib/droxi/commands.rb:470-478 | when the destination has no metadata, nothing is copied or moved and the only line says there is no such directory |
| CommandEffects.SingleToFile | lib/droxi/commands.rb:466-469 | one source and a destination that is not a directory give a single copy or move to the destination as typed |
| CommandEffects.MkdirStores | lib/droxi/commands.rb:270-273 | a created folder's record is found under the path as resolved, with no contents, no line is output, every other key keeps its entry, and the keys already cached keep their order with at most the new path appended; a failure outputs the error and leaves the cache as it was |
| CommandEffects.MkdirKeepsOtherEntries | lib/droxi/commands.rb:271-272 | because `mkdir` assigns with `Hash#[]=` rather than `Cache#add`, a created path with capitals leaves the entry under its lower-cased key as it was, and the parent's entry, its `contents` included, is not updated |
| Commands.MkdirOne | lib/droxi/commands.rb:270-273 | creating one folder keeps the cache valid: the stored entry is the client's record with no contents |
| Complete.StripFilename | lib/droxi/complete.rb:69-75 | the root stays the root; a path ending in `/` loses that one `/`; any other path becomes its directory name |
| Complete.Collapsed | lib/droxi/complete.rb:79-84 | `collapse` never lengthens the path and leaves no `./` in it |
| Complete.Collapse | lib/droxi/complete.rb:79-84 | the two `nil while sub!` loops over a copy compute `Collapsed` |
| Complete.RemoteSearchPath | lib/droxi/complete.rb:35-43 | an absolute string is collapsed and stripped of its file name as it is; any other string, the empty one included, is first put under the working directory |
| Complete.BaseNames | lib/droxi/complete.rb:50-52 | one base name per listed path, in order |
| Complete.Candidates | lib/droxi/complete.rb:52-57 | the candidates are exactly those of the entries that start with the typed name and are not `.` or `..`, at most one per entry |
| Complete.Remote | lib/droxi/complete.rb:46-58 | there are at most as many candidates as entries in the searched directory (that each extends what was typed is `RemoteCandidate`) |
| Complete.EndingInSlash | lib/droxi/complete.rb:63 | the kept results are exactly those ending in `/`, in order |
| Complete.RemoteDir | lib/droxi/complete.rb:62-64 | `remote_dir` offers exactly the results of `remote` that end in `/` |
| CompleteProperties.StripTrailingSlash | lib/droxi/complete.rb:69-75 | a path written with a trailing `/` strips back to itself without the slash, and `/` stays `/` |
| CompleteProperties.StripChild | lib/droxi/complete.rb:71 | a name typed after a directory strips back to that directory |
| CompleteProperties.DirnameTop | lib/droxi/complete.rb:71 | the directory of a one-segment absolute path is the root |
| CompleteProperties.StripDoubleSlash | lib/droxi/complete.rb:71 | `//f`, what `collapse` leaves of `/n/../f`, strips to the root |
| CompleteProperties.CollapseNoDot | lib/droxi/complete.rb:79-84 | text without `.` is left as it is by both loops |
| CompleteProperties.CollapseDotSlash | lib/droxi/complete.rb:82 | `p/./f` collapses to `p/f` when neither part holds a dot |
| CompleteProperties.CollapseParent | lib/droxi/complete.rb:81 | `/n/../f` collapses to `//f` for a one-segment directory |
| CompleteProperties.SearchUnqualified | spec/complete_spec.rb:117-120 | `''` and a bare name are completed in the working directory |
| CompleteProperties.SearchRoot | spec/complete_spec.rb:122-125 | `/` and `/f` are completed in the root |
| CompleteProperties.SearchNamedDirectory | spec/complete_spec.rb:127-130 | `/d/` and `/d/f` are completed in `/d` |
| CompleteProperties.SearchDot | spec/complete_spec.rb:132-135 | `./` and `./f` are completed in the working directory |
| CompleteProperties.SearchDotAlone | spec/complete_spec.rb:133 | `./` is completed in a plain working directory |
| CompleteProperties.SearchDotName | spec/complete_spec.rb:134 | `./f` is completed in a plain working directory |
| CompleteProperties.SearchParent | spec/complete_spec.rb:137-141 | under a one-segment working directory, `../` and `../f` are completed in its parent |
| CompleteProperties.TypedNameSuffix | lib/droxi/complete.rb:48 | the basename being completed is the end of what was typed |
| CompleteProperties.Stem | lib/droxi/complete.rb:56 | what was typed is its stem followed by the basename being completed |
| CompleteProperties.CandidateShape | lib/droxi/complete.rb:55-56 | a candidate starts with what was typed and is the stem, the whole entry name, then `/` or a space |
| CompleteProperties.RemoteCandidate | lib/droxi/complete.rb:46-58 | every result of `remote` extends what was typed with the rest of an entry name that starts with the typed basename, is not `.` or `..`, and is marked by its kind |
| CompleteProperties.RemoteComplete | lib/droxi/complete.rb:50-57 | every entry of the search directory that extends the typed basename, other than `.` and `..`, is offered |
| CompleteProperties.RemoteDirIsDirectories | lib/droxi/complete.rb:62-64 | `remote_dir` offers exactly the candidates of the entries that are directories |
| Text.Columns | lib/droxi/text.rb:37-45 | the width used is always positive: the reported screen width when positive, `DEFAULT_WIDTH` (72) otherwise |
| Text.MaxLength | lib/droxi/text.rb:14 | the maximum item length is no shorter than any item and is the length of some item |
| Text.TimesIsProduct | lib/droxi/text.rb:50 | repeated addition computes `i * items_per_line` |
| Text.CeilDiv | lib/droxi/text.rb:16 | `(n.to_f / d).ceil` is the fewest lines of `d` items that hold `n` items, and positive when `n` is |
| Text.Slice | lib/droxi/text.rb:50 | `items[start, len]` is the run of at most `len` items from `start`, cut short only by the end of the list |
| Text.FormatTable | lib/droxi/text.rb:48-54 | `format_table` makes exactly `num_lines` lines |
| Text.TimesMonotone | lib/droxi/text.rb:50 | later lines start at later items |
| Text.ItemWidth | lib/droxi/text.rb:14 | the cell width is at least 2 and at least every item's length plus 2 |
| Text.PerLine | lib/droxi/text.rb:15 | at least one cell per line, and more only when they fit in `columns` |
| Text.Table | lib/droxi/text.rb:9-19 | `table([])` is `[]`, and only then; otherwise the line count is the ceiling of the item count over the cells per line |
| Text.WordEnd | lib/droxi/text.rb:58 | the first word ends at the next space or at the end of the text |
| Text.WordEndNoSpace | lib/droxi/text.rb:58 | no space stands inside the word `partition(' ')` takes |
| Text.GrowEnd | lib/droxi/text.rb:59-62 | the loop of `get_wrap_segment` stops at a word end once the segment reaches `columns` or the text is used up |
| Text.GrowEndLastSpace | lib/droxi/text.rb:59-64 | when the loop added a word, a space before the last word lies inside the first `columns` characters |
| Text.WrapSegment | lib/droxi/text.rb:57-68 | a wrap segment is a prefix of the text that ends at a space or the end, and is no wider than `columns` unless it is one word |
| Text.DropLastWord | lib/droxi/text.rb:63-64 | `rpartition(' ')[0]` of an overshooting segment drops exactly its last word |
| Text.After | lib/droxi/text.rb:29 | what follows a line is the text after the line and one space |
| Text.WrapCons | lib/droxi/text.rb:27-30 | the lines of `wrap` are the first segment followed by the lines of the rest |
| Text.GetWrapSegment | lib/droxi/text.rb:57-68 | the `partition` loop over the strings, as the source keeps them, computes `WrapSegment` |
| Text.SegmentAt | lib/droxi/text.rb:63-67 | where the loop stops, the segment is the text up to there, or that text without its last word when it overshoots |
| Text.NextWord | lib/droxi/text.rb:60-61 | one round: `partition(' ')` of the rest and ` head` appended extend the segment to the next word end |
| Text.PartitionAt | lib/droxi/text.rb:58 | `partition(' ')` of the text from a position is the word there and what follows its space |
| Text.SuffixAt | lib/droxi/text.rb:28 | `text[position, text.length]` is what follows the first `position` characters |
| Text.NextLine | lib/droxi/text.rb:27-29 | one round of `wrap` takes the first line of the rest, moves the position past it and one space, and the lines still to come are those of what follows |
| Text.WrapSpec | lib/droxi/text.rb:23-32 | wrapping gives no more lines than the text has characters, and no line exactly for the empty text |
| Text.Wrap | lib/droxi/text.rb:23-32 | the `while` loop of `wrap` terminates and computes `WrapSpec` |
| TextProperties.ConcatAppend | lib/droxi/text.rb:52 | joining two lists of strings is joining each and concatenating |
| TextProperties.JoinPaddedAppend | lib/droxi/text.rb:50-52 | padding and joining distributes over concatenation of the items |
| TextProperties.JoinPaddedLength | lib/droxi/text.rb:50-52 | items no wider than the cell width make a line exactly `count * width` long |
| TextProperties.ShiftSlice | lib/droxi/text.rb:52 | a cell keeps its content when a prefix is put before it |
| TextProperties.JoinPaddedCell | lib/droxi/text.rb:50-52 | in a joined line, item `j` fills the cell at column `j * width`, padded to the width |
| TextProperties.FormatTableLine | lib/droxi/text.rb:49-53 | line `i` of `format_table` is row `i`: the items from `i * per_line`, padded and joined |
| TextProperties.CoveredPrefix | lib/droxi/text.rb:50 | the items before `k` and the slice from `k` make the items before `k + per_line` |
| TextProperties.FormatTableCovers | lib/droxi/text.rb:48-54 | the lines of `format_table`, put together, are the padded items covered by `num_lines` lines, in order |
| TextProperties.TableIs | lib/droxi/text.rb:13-17 | `table` is `format_table` with the width of the widest item plus 2, `max(1, columns / width)` cells per line and just enough lines for every item |
| TextProperties.TableCovers | lib/droxi/text.rb:9-19 | the lines of `table`, put together, are every item exactly once, in order, each padded to the cell width |
| TextProperties.FormatTableCell | lib/droxi/text.rb:49-53 | cell `j` of line `i` of `format_table` is item `i * per_line + j`, padded |
| TextProperties.SliceAt | lib/droxi/text.rb:50 | element `j` of the slice from `start` is item `start + j` |
| TextProperties.TableCell | lib/droxi/text.rb:9-19 | cell `j` of line `i` of `table` is item `i * per_line + j`, padded to the cell width |
| TextProperties.FormatTableLineWidth | lib/droxi/text.rb:50-52 | a line of `format_table` is at most `per_line` cells wide |
| TextProperties.TableLineWidth | lib/droxi/text.rb:14-17 | every line of `table` is at most `per_line` cells of the cell width |
| TextProperties.TableFits | spec/text_spec.rb:50-54 | when the widest item plus 2 fits the terminal, no table line is wider than `columns` |
| TextProperties.TableOneItem | spec/text_spec.rb:56-58 | a single item, however wide, makes exactly one table line |
| TextProperties.JoinCons | lib/droxi/text.rb:29 | joining a line before others puts one separator between them |
| TextProperties.JoinStep | lib/droxi/text.rb:28-29 | a line joined by one space to the lines of the rest gives back the text, up to a final space |
| TextProperties.WrapJoin | lib/droxi/text.rb:23-32 | the lines of `wrap`, joined with single spaces, give back the text, up to one trailing space |
| TextProperties.WrapIndex | lib/droxi/text.rb:27-30 | line `i` of `wrap`, past the first, is line `i - 1` of the text after the first |
| TextProperties.WrapLinesNarrow | lib/droxi/text.rb:57-68 | every line of `wrap` is no wider than the terminal or is a single word |
| TextProperties.WordsFitAfter | lib/droxi/text.rb:29 | the text after a line has no word wider than the text had |
| TextProperties.WrapFirstFits | lib/droxi/text.rb:57-68 | the first line fits when no word is wider than the terminal |
| TextProperties.WrapFits | spec/text_spec.rb:24-28 | when no word is wider than the terminal, no line of `wrap` is |
| TextProperties.WrapOneWord | spec/text_spec.rb:30-33 | a single word, however wide, is one line, unsplit |
| Config.FirstEq | lib/droxi/settings.rb:59 | the lazy `(.+?)` ends at the first `=` from index 1 on; none means no `=` there |
| Config.SplitSetting | lib/droxi/settings.rb:59-60 | a match of `^(.+?)=(.+)$` splits the line into a non-empty key without `=` after its first character, `=`, and a non-empty value |
| Config.Parse | lib/droxi/settings.rb:58-69 | `parse` gives a pair only for an allowed key and a non-empty value that rebuild the line around `=`; anything else gives `{}` |
| Config.AllowedGood | lib/droxi/settings.rb:61 | `access_token` and `oldpwd` are non-empty, hold no `=` and start with no whitespace |
| Config.ParseIff | lib/droxi/settings.rb:58-69 | for keys without `=`, a line parses to `(k, v)` exactly when `k` is allowed, `v` is non-empty and the line is `k=v` |
| Config.Strip | lib/droxi/settings.rb:75 | `strip` never lengthens and leaves no whitespace or NUL at either end |
| Config.Lines | lib/droxi/settings.rb:75 | the lines `each_line` yields hold no newline |
| Config.MergeLine | lib/droxi/settings.rb:75 | merging one parsed line keeps the hash well formed |
| Config.MergeLines | lib/droxi/settings.rb:75 | merging parsed lines adds only allowed keys |
| Config.ReadText | lib/droxi/settings.rb:72-80 | `read` gives a well-formed hash holding only allowed keys, and `{}` without a file |
| Config.MergeLinesAppend | lib/droxi/settings.rb:75 | the `reduce` over `a + b` is the reduce over `b` from the result of `a` |
| Config.ReadLaterWins | lib/droxi/settings.rb:75 | a later line for a setting overrides whatever came before it |
| Config.Serialise | lib/droxi/settings.rb:40 | the text is empty exactly when there are no keys; otherwise it is longer than the first key's `k=v` pair and ends in a line break |
| Config.SaveText | lib/droxi/settings.rb:34-45 | the written text is empty exactly when there are no settings, and otherwise ends in a line break |
| Config.LinesCons | lib/droxi/settings.rb:40 | a written line followed by more text reads back as that line, then the lines of the rest |
| Config.StripSetting | lib/droxi/settings.rb:75 | `strip` leaves a written `k=v` line as it is |
| Config.StoreAll | lib/droxi/settings.rb:75 | storing a hash's own pairs in its key order rebuilds the hash, order included |
| Config.ReadSerialised | lib/droxi/settings.rb:40 | reading back the lines written for the keys from index `i` on stores exactly those pairs |
| Config.SaveReadRoundTrip | lib/droxi/settings.rb:34-45 | `read` of what `save` writes gives back the settings, key order included, for allowed keys and values free of newlines and surrounding whitespace |
| Config.Settings.constructor | lib/droxi/settings.rb:82-83 | the store is what `read` gives and the flag is clear |
| Config.Settings.Get | lib/droxi/settings.rb:8-10 | `Settings[k]` is the stored value, `nil` exactly when `k` is absent |
| Config.Settings.Set | lib/droxi/settings.rb:13-18 | afterwards `Settings[k]` is the value; store and dirty flag change only when the value differs from the current one |
| Config.Settings.Delete | lib/droxi/settings.rb:26-31 | returns the old value and leaves the key absent; a present key is removed and the flag set, an absent one changes nothing |
| Config.Settings.Save | lib/droxi/settings.rb:34-45 | when dirty, clears the flag and writes each pair as `k=v` in key order; when clean writes nothing; the settings are unchanged |
| LegacySettings.ParseOnlyAccessToken | settings.rb:45-55 | the earlier parser accepts a line exactly when it is `access_token=v` with `v` non-empty |
| LegacySettings.OldpwdRejected | settings.rb:48-50 | an `oldpwd` line, which the later parser accepts, is rejected by the earlier one |
| LegacySettings.Settings.constructor | settings.rb:67-68 | the store is what `read` gives with only `access_token` allowed, and the flag is clear |
| LegacySettings.Settings.Get | settings.rb:6-8 | `Settings[k]` is the stored value, `nil` exactly when absent |
| LegacySettings.Settings.Set | settings.rb:10-15 | afterwards `Settings[k]` is the value and `include?(k)` holds; store and flag change only when the value differs |
| LegacySettings.Settings.Delete | settings.rb:21-26 | returns the old value or `nil`, and afterwards `include?(k)` fails; only a present key sets the flag |
| LegacySettings.Settings.Write | settings.rb:28-36 | when dirty, clears the flag and writes each pair as `k=v`; when clean writes nothing |
| Droxi.ReadReenter | lib/droxi.rb:33-34 | the session is a re-entry exactly when the first command-line argument is `REENTER`, and the arguments passed on are the command line with every `REENTER` removed |
| DroxiProperties.WithoutCounts | lib/droxi.rb:34 | removing `REENTER` drops all of its occurrences and keeps every other argument as often as it occurred |
| Droxi.EnterInteractive | lib/droxi.rb:142-143 | on re-entry the working directory and the previous one swap, and the settings store gains `oldpwd` set to the directory left (marking the settings dirty) unless it already held that value, in which case store and dirty flag are unchanged; otherwise state and settings are untouched; the local previous directory, exit request and debug flag never change |
| Droxi.LeaveInteractive | lib/droxi.rb:151-152 | leaving the interactive loop moves to the root and the previous directory becomes the one the session ended in; the settings store gains `oldpwd` set to that directory (marking the settings dirty) unless it already held it, in which case store and dirty flag are unchanged; the other state fields stay |
| Droxi.ResumeSession | lib/droxi.rb:39-45 | a fresh session started with `REENTER` begins in the directory the previous session saved as `oldpwd` (the root when none was saved) |
| Droxi.Escape | lib/droxi.rb:108 | escaping never shortens an argument, the result does not start with a space, and every later space has a backslash right before it |
| Droxi.EscapeAll | lib/droxi.rb:108 | each argument is escaped on its own, position by position |
| DroxiProperties.EscapeAppend | lib/droxi.rb:108 | escaping spaces distributes over concatenation |
| DroxiProperties.EscapeNoSpace | lib/droxi.rb:108 | an argument without spaces is left as it is |
| DroxiProperties.EscapeFields | lib/droxi.rb:108 | an escaped argument is its space-separated fields with a backslash closing every field but the last |
| Droxi.JoinCmd | lib/droxi.rb:107-109 | no arguments give the empty line; otherwise the line starts with the first argument escaped |
| DroxiProperties.JoinAppend | lib/droxi.rb:108 | joining two non-empty lists of words is joining each and putting one space between |
| DroxiProperties.FieldsOfJoinable | lib/droxi.rb:108 | a joinable argument splits on spaces into whitespace-free fields that join back to it, the last of them not ending in a backslash |
| DroxiProperties.SplitJoin | lib/droxi/commands.rb:398-399 | whitespace-free non-empty words joined by single spaces are split back into the same words |
| DroxiProperties.JoinCmdWords | lib/droxi.rb:107-109 | the joined command line is exactly the words of all escaped arguments, in order, separated by single spaces |
| DroxiProperties.AllToksWords | lib/droxi.rb:107-109 | every word of the joined line is non-empty and free of whitespace |
| DroxiProperties.FoldPending | lib/droxi/commands.rb:399-405 | a token ending in a backslash absorbs the following escaped words of its argument, giving back the argument with its spaces |
| DroxiProperties.FoldArgument | lib/droxi/commands.rb:399-405 | from a list whose last token does not end in a backslash, the words of one joinable argument append exactly that argument |
| DroxiProperties.FoldArguments | lib/droxi/commands.rb:399-405 | the words of any number of joinable arguments append exactly those arguments |
| DroxiProperties.JoinCmdRoundTrip | lib/droxi.rb:107-109 | tokenizing the joined command line gives back the original arguments, for arguments that are non-empty, hold no whitespace but spaces and end in neither a space nor a backslash |
| DroxiProperties.TrailingBackslashMerges | lib/droxi.rb:107-109 | the round trip does not hold for an argument ending in a backslash: `a\` and `b` come back as the single argument `a b` |
| LegacyState.Resolve | state.rb:12-20 | the resolved path is never empty: an empty result becomes the root |
| LegacyStateProperties.ResolvePlain | state.rb:12-20 | an absolute path with no doubled slash, no dot segment and no trailing slash is its own resolution, here and in lib/droxi/state.rb alike |
| LegacyStateProperties.ResolveRoot | state.rb:17-18 | the root resolves to the root, whatever the working directory |
| LegacyStateProperties.ResolveAbsolute | state.rb:13 | an absolute path resolves independently of the working directory |
| LegacyStateProperties.ResolveUnqualified | state.rb:13 | a plain name is taken relative to the working directory |
| LegacyStateProperties.ResolveDotDot | state.rb:15-16 | each `..` removes the segment before it, so `../..` from `/a/b/g` is `/a` |
| LegacyStateProperties.ResolveKeepsDot | state.rb:12-20 | this older resolver keeps a `.` segment (`/a` with `.` gives `/a/.`), where lib/droxi/state.rb gives `/a` |
| LegacyState.Matches | state.rb:26-30 | the matches are exactly the listed paths the pattern matches, never more than were listed |
| LegacyState.ExpandOne | state.rb:23-36 | a pattern fails exactly when its directory cannot be listed; otherwise it yields at least one path, each of them the resolved pattern itself or a listed path it matches |
| LegacyState.ExpandSpec | state.rb:22-38 | the expansion fails exactly when some pattern's directory cannot be listed, and otherwise yields at least one path per pattern |
| LegacyState.FlatMap | state.rb:23-37 | a flattened result exists only when every pattern's expansion succeeds, and no pattern gives the empty list |
| LegacyState.FlatMapFails | state.rb:37 | the flattened expansion fails exactly when one of its patterns fails |
| LegacyState.FlatMapAppend | state.rb:37 | flattening the expansion of two pattern lists is concatenating their expansions |
| LegacyState.FlatMapLength | state.rb:37 | when every pattern yields something, the flattened result is at least as long as the pattern list |
| LegacyState.State.constructor | state.rb:4-6 | a new state has the root as working and previous directory |
| LegacyState.State.SetPwd | state.rb:8-10 | setting the working directory moves the old one into the previous directory |
| LegacyState.State.ResolvePath | state.rb:12-20 | resolving against the state agrees with the reference resolution from its working directory |
| LegacyState.State.ExpandPattern | state.rb:23-36 | one pattern's loop over the listing computes the reference expansion of that pattern |
| LegacyState.State.ExpandPatterns | state.rb:22-38 | the loop over all patterns computes the reference expansion, failing at the first pattern whose listing fails |
| LegacyStateProperties.ExpandSingle | state.rb:22-38 | expanding a single pattern is expanding that pattern |
| LegacyStateProperties.ExpandUnmatched | state.rb:32-33 | a pattern that matches nothing in its listing expands to itself, resolved |
| LegacyStateProperties.NoMatches | state.rb:26-30 | nothing is collected when no listed path matches |
| LegacyStateProperties.ExpandMatched | state.rb:26-35 | a pattern that matches some listed path expands to exactly the matching paths |
| LegacyStateProperties.ExpandAppend | state.rb:22-38 | expanding two lists of patterns one after the other gives the concatenation of their expansions |
| LegacyCommands.State.constructor | commands.rb:4 | the state holds the working directory the commands read and `cd` writes |
| LegacyCommands.ResolvePath | commands.rb:115-123 | the commands resolve paths exactly as the legacy `State#resolve_path` does, against the working directory |
| LegacyCommands.Cd | commands.rb:2-18 | no argument moves to the root; one argument moves to its resolved path when that is a directory and otherwise reports `Not a directory` or `No such file or directory` without moving; more arguments print the usage and change nothing; the new directory and the lines are those of `CdSpec` |
| LegacyCommands.CdSpec | commands.rb:2-18 | `cd` yields at most one line, moves only when it yields nothing, and yields nothing exactly for no argument or for one argument whose resolved path Dropbox reports as a directory, which then becomes the working directory |
| LegacyCommands.Endpoints | commands.rb:21-27 | one or two arguments give a source and destination (one argument serves as both); any other count is rejected |
| LegacyCommands.ResolvedInPlace | commands.rb:115-123 | a relative argument is left as it was; an absolute one holds the rewritten path, which resolves to itself, or to the root when empty |
| LegacyCommands.Get | commands.rb:20-38 | a wrong argument count prints the usage only; otherwise the resolved file is fetched and, when that succeeds, written locally under the destination's basename with nothing printed (with one argument the destination is the source string as `resolve_path` rewrote it in place), and a fetch error is printed |
| LegacyCommandsProperties.GetOneArgument | commands.rb:22 | `get f` behaves as `get f f` for a relative `f` |
| LegacyCommandsProperties.GetOneAbsolute | commands.rb:22-32 | for an absolute `f`, `get f` behaves as `get f g` where `g` is `f` as `resolve_path` rewrote it in place |
| LegacyCommandsProperties.GetOneAbsoluteAliased | commands.rb:22-32 | `get /a/g/..` fetches `/a` and writes it to `a`, while `get /a/g/.. /a/g/..` fetches the same file and writes it to `..` |
| LegacyCommandsProperties.GetWritesBasename | commands.rb:32 | a directory in the local destination is ignored: the file lands under the destination's last segment |
| LegacyCommands.Ls | commands.rb:40-48 | with arguments only the usage is printed; without, one line per entry of the working directory, each its basename, in listing order, and an unlistable directory raises |
| LegacyCommands.Mkdir | commands.rb:50-61 | exactly one argument creates the folder at its resolved path and prints any error; another count prints the usage only |
| LegacyCommands.Put | commands.rb:63-81 | a wrong argument count prints the usage; otherwise the local file is uploaded to the destination's basename under the working directory, nothing is printed when the upload succeeds, a local read error is printed with no upload, and a failed upload prints the client's error |
| LegacyCommandsProperties.PutDropsDirectory | commands.rb:72 | a directory in the remote destination is dropped: `put f d/t` uploads where `put f t` does |
| LegacyCommandsProperties.PutUnderWorkingDir | commands.rb:72-76 | the upload goes to the destination name inside the working directory |
| LegacyCommands.Send | commands.rb:106 | only `ls` can raise, and only when its listing fails; a listing that succeeds prints its lines and makes no request; `get`, `mkdir` and `put` run as those commands say |
| LegacyCommands.Dispatch | commands.rb:94-111 | a line starting with `!` goes to the shell, an empty line does nothing, a known command runs with the remaining words as arguments, and an unknown first word is reported as unrecognized |
| LegacyCommands.Exec | commands.rb:94-111 | executing a line does what its dispatch says: the shell call, nothing, the unrecognized line, the named command's calls and output, `cd`'s new directory and lines as `CdSpec` gives them, or an exception; only `cd` changes the working directory |
| LegacyCommandsProperties.BlankRaises | commands.rb:97-99 | a non-empty line of whitespace has no first word and raises |
| LegacyCommandsProperties.ShellRaises | commands.rb:83-106 | `shell` is a listed command but takes one argument where three are sent, so it raises |
| LegacyCommandsProperties.UnknownWord | commands.rb:105-108 | a word that names no command is reported as `Unrecognized command: ` followed by it |
| LegacyCommandsProperties.NamesAreWords | commands.rb:101-103 | every command name is a non-empty word that does not start with `!` |
| LegacyCommandsProperties.RunsFirstWord | commands.rb:98-106 | a line whose first word names a command runs that command with the other words as its arguments |
| LegacyCommandsProperties.KnownCommand | commands.rb:98-106 | a command name, a space and one word run the command with that word as its only argument |
| LegacyCommandsProperties.BangGoesToShell | commands.rb:95-96 | a line starting with `!` runs the rest of it in the shell |

## Left out

- The Dropbox API (`metadata`, `file_delete`, `file_copy`, `file_move`, `file_create_folder`, `get_file`, `put_file`, `media`, `shares`, `get_current_account`, authorisation) is a fixed oracle, the datatype `Session.Client` of functions: it answers the same call the same way, so the remote side does not evolve as commands run.
- `Session.ClientOk` requires the oracle's records to be well nested (each listed child has a strictly longer path than its directory). The Dropbox API promises this; the Ruby code does not check it.
- The `get`, `put`, `lcd`, `share`, `media` and `help` commands of lib/droxi/commands.rb are not modelled: they are local file I/O, links, or help text over the command table.
- The display part of `ls` (`long_info`, its time and size formatting, and the call to `Text.table`) is not modelled: it depends on the clock and on Ruby's `Time` library. Only `ls`'s argument handling is.
- Local filesystem access (`File.open`, `Dir.chdir`, `Complete.local`, `local_dir`, `local_search_path`, `File.expand_path`), the reading and writing of the settings file, `Commands.shell` (`IO.popen`), Readline, the prompt, the interaction loop, `handle_options` and interrupt handling are I/O and are left out; `Config.ReadText` takes the file's text as a parameter and `Config.Settings.Save` returns the text to write.
- `Text.get_columns` asks the terminal for its width; the width is a parameter of `Text.Table` and `Text.Wrap`.
- `File.fnmatch` is a parameter of the glob functions, applied to lower-cased strings as lib/droxi/state.rb applies it; its glob semantics are not modelled.
- `String#downcase` is modelled as ASCII lower-casing (`Strings.Lower`); Unicode case mapping is not.
- Ruby's `$` and `^` anchors in the regular expressions of `resolve_path`, `collapse`, `Settings.parse`, the `/^\.{1,2}$/` filter of `Complete.remote` (lib/droxi/complete.rb:53) and the `/\/$/` of `strip_filename` (lib/droxi/complete.rb:71) match at line breaks; the model treats them as the ends of the string, which is the same for paths, names and setting lines without a newline.
- The `invalid setting: LINE` warning that `Settings.warn_invalid` writes to standard error (lib/droxi/settings.rb:51-52, :64, :67; settings.rb:40-43) is dropped: `Config.Parse` and `LegacySettings.ParseOnlyAccessToken` give only the empty setting an invalid line yields.
- `state.cache_add` is called in lib/droxi/commands.rb but not defined in lib/droxi/state.rb; it is modelled as `Cache#add`.
- `NAMES`, found by reflection over the module's constants, and the legacy `singleton_methods` list are explicit name tables (`Commands.UsageOf`, `LegacyCommands.Names`).
- `exit_status`, `debug_enabled` and the three-argument `State.new` of lib/droxi.rb are not part of lib/droxi/state.rb and are not modelled.
- Caches.AddSpec: the de-duplication test in `Cache#add` compares whole records, nested `contents` included; the model's links hold a record's path, directory flag, size and modification time, and compares those.
- Session.ExpandSpec: its own contract states only that the cache stays valid; what each pattern yields is stated by `SessionProperties.ExpandDirectory`, `ExpandMatches`, `ExpandNoMatch`, `ReprefixRelative` and `ExpandAppend`.
- Session.ExpandOne: states at least one item per pattern and a valid cache; the items themselves are stated by the same lemmas.
- Commands.MkdirAll: states only that the cache stays valid; what one folder does is stated by `Commands.MakeFolder`, `CommandEffects.MkdirStores` (the record under the path as resolved, every other entry and the key order kept) and `CommandEffects.MkdirKeepsOtherEntries` (the lower-cased entry and the parent's `contents` untouched).
- Commands.MkdirOne: stores the created folder under the path as resolved, not lower-cased, as lib/droxi/commands.rb:272 does, so a folder created under a mixed-case name is not found by a later lookup of its lower-cased key; this model does not correct it.
- Commands.RmOne: drops the deleted path with `Cache#remove`, the corrected update under "## Findings", where lib/droxi/commands.rb:327 calls `Hash#delete` on the path `expand_patterns` yields: the record's own `path` as Dropbox reports it for a glob match, and the resolved path in the letter case the user typed for a directory operand (lib/droxi/state.rb:97-99); for a directory the cached subtree and the parent's link are left behind; the code as written is `Commands.RmOneAsWritten`.
- Commands.RmAll: built on `Commands.RmOne`, so it drops the deleted path with `Cache#remove`, the corrected update under "## Findings", where lib/droxi/commands.rb:327 calls `Hash#delete` on the path `expand_patterns` yields: the record's own `path` as Dropbox reports it for a glob match, and the resolved path in the letter case the user typed for a directory operand (lib/droxi/state.rb:97-99); for a directory the cached subtree and the parent's link are left behind; the code as written is `Commands.RmOneAsWritten`.
- Commands.RmItem: follows `Commands.RmOne`, so it drops the deleted path with `Cache#remove`, the corrected update under "## Findings", where lib/droxi/commands.rb:327 calls `Hash#delete` on the path `expand_patterns` yields: the record's own `path` as Dropbox reports it for a glob match, and the resolved path in the letter case the user typed for a directory operand (lib/droxi/state.rb:97-99); for a directory the cached subtree and the parent's link are left behind; the code as written is `Commands.RmOneAsWritten`.
- Commands.RmItems: follows `Commands.RmAll`, so it drops the deleted path with `Cache#remove`, the corrected update under "## Findings", where lib/droxi/commands.rb:327 calls `Hash#delete` on the path `expand_patterns` yields: the record's own `path` as Dropbox reports it for a glob match, and the resolved path in the letter case the user typed for a directory operand (lib/droxi/state.rb:97-99); for a directory the cached subtree and the parent's link are left behind; the code as written is `Commands.RmOneAsWritten`.
- Commands.Rm: follows `Commands.RmAll`, so it drops the deleted path with `Cache#remove`, the corrected update under "## Findings", where lib/droxi/commands.rb:327 calls `Hash#delete` on the path `expand_patterns` yields: the record's own `path` as Dropbox reports it for a glob match, and the resolved path in the letter case the user typed for a directory operand (lib/droxi/state.rb:97-99); for a directory the cached subtree and the parent's link are left behind; the code as written is `Commands.RmOneAsWritten`.
- Commands.CopyMoveSpec: drops the source of a move with `Cache#remove`, the corrected update under "## Findings", where lib/droxi/commands.rb:457 calls `Hash#delete` on the path as resolved; the code as written is `Commands.CopyMoveAsWritten`.
- Commands.CopyMove: follows `Commands.CopyMoveSpec`, so it drops the source of a move with `Cache#remove`, the corrected update under "## Findings", where lib/droxi/commands.rb:457 calls `Hash#delete` on the path as resolved; the code as written is `Commands.CopyMoveAsWritten`.
- Commands.CopyEach: built on `Commands.CopyMoveSpec`, so it drops the source of a move with `Cache#remove`, the corrected update under "## Findings", where lib/droxi/commands.rb:457 calls `Hash#delete` on the path as resolved; the code as written is `Commands.CopyMoveAsWritten`.
- Commands.CopyAll: follows `Commands.CopyEach`, so it drops the source of a move with `Cache#remove`, the corrected update under "## Findings", where lib/droxi/commands.rb:457 calls `Hash#delete` on the path as resolved; the code as written is `Commands.CopyMoveAsWritten`.
- Commands.IntoSpec: built on `Commands.CopyEach`, so it drops the source of a move with `Cache#remove`, the corrected update under "## Findings", where lib/droxi/commands.rb:457 calls `Hash#delete` on the path as resolved; the code as written is `Commands.CopyMoveAsWritten`.
- Commands.Into: follows `Commands.IntoSpec`, so it drops the source of a move with `Cache#remove`, the corrected update under "## Findings", where lib/droxi/commands.rb:457 calls `Hash#delete` on the path as resolved; the code as written is `Commands.CopyMoveAsWritten`.
- Commands.SingleSpec: built on `Commands.CopyMoveSpec`, so it drops the source of a move with `Cache#remove`, the corrected update under "## Findings", where lib/droxi/commands.rb:457 calls `Hash#delete` on the path as resolved; the code as written is `Commands.CopyMoveAsWritten`.
- Commands.Single: follows `Commands.SingleSpec`, so it drops the source of a move with `Cache#remove`, the corrected update under "## Findings", where lib/droxi/commands.rb:457 calls `Hash#delete` on the path as resolved; the code as written is `Commands.CopyMoveAsWritten`.
- Commands.DispatchSpec: built on `Commands.SingleSpec` and `Commands.IntoSpec`, so it drops the source of a move with `Cache#remove`, the corrected update under "## Findings", where lib/droxi/commands.rb:457 calls `Hash#delete` on the path as resolved; the code as written is `Commands.CopyMoveAsWritten`.
- Commands.Dispatch: follows `Commands.DispatchSpec`, so it drops the source of a move with `Cache#remove`, the corrected update under "## Findings", where lib/droxi/commands.rb:457 calls `Hash#delete` on the path as resolved; the code as written is `Commands.CopyMoveAsWritten`.
- Commands.CpMv: follows `Commands.DispatchSpec`, so it drops the source of a move with `Cache#remove`, the corrected update under "## Findings", where lib/droxi/commands.rb:457 calls `Hash#delete` on the path as resolved; the code as written is `Commands.CopyMoveAsWritten`.
- Commands.Classify: its own contract states only that the cache stays valid; its lines and its split into files and directories are stated by `CommandProperties.ClassifyLines` and `CommandProperties.ClassifySplits`.
- CompleteProperties.SearchParent: `remote_search_path('../')` is proved to give the working directory's parent for a working directory of one segment only.
- The legacy `state.working_dir` that commands.rb reads and writes is not defined by the legacy state.rb; `LegacyCommands.State` is a class of its own holding it.
- The `command` and `complete` functions that lib/droxi/complete.rb is called with elsewhere are not defined there and are not part of this model.

## Findings

| source | as written | input that shows it | evidently intended | confidence | as-written member | corrected member |
|---|---|---|---|---|---|---|
| lib/droxi/commands.rb:327 | after a successful delete, `rm` calls `Hash#delete` with the path `expand_patterns` yields, while cache keys are lower-cased: for a glob match that path is the record's own `path` field (lib/droxi/state.rb:55-62), for a directory operand it is the resolved path in the letter case the user typed (lib/droxi/state.rb:97-99); only that one key can go, so the parent's cached `contents` record and, for a directory, every cached descendant stay | a file Dropbox reports as `/Photos/a.jpg`, cached under `/photos/a.jpg`: `rm /photos/a.j*` deletes it remotely but its entry stays, whichever case the user typed; `rm /photos` on a directory Dropbox reports as `/Photos`: the key `/photos` goes, but its cached children stay (`CommandEffects.RmAsWrittenKeepsDescendants`) and the root's cached `contents` still lists it (`CommandEffects.RmAsWrittenKeepsLink`) | forget the deleted path in any letter case, with its subtree, and unlink it from its parent, as `Cache#remove` does | not executed | CommandEffects.RmAsWrittenKeepsEntry | CommandEffects.RmForgetsPath |
| lib/droxi/commands.rb:457 | after a successful move, `mv` drops the source with `Hash#delete` under the path as resolved, so a source typed in mixed case keeps its lower-cased entry | `mv /Photos/a.jpg /b.jpg` with `/photos/a.jpg` cached: `/photos/a.jpg` stays cached next to `/b.jpg` | forget the moved source in any letter case, as `Cache#remove` does | not executed | CommandEffects.MvAsWrittenKeepsEntry | CommandEffects.MvForgetsSource |
