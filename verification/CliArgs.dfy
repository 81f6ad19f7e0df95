/**
 The normaliser of Claude CLI arguments (extensions/anthropic/cli-shared.ts): it restricts
 setting sources, drops the legacy permission flag, and settles the permission mode.
 */
module CliArgs {
  import opened Prelude
  import Text

  /** The flags the normaliser knows, the values it writes, and how values are trimmed. */
  datatype Cli = Cli(legacy: string, mode: string, sources: string, user: string, bypass: string,
      trim: string -> string)

  const CLAUDE := Cli("--dangerously-skip-permissions", "--permission-mode", "--setting-sources", "user",
                      "bypassPermissions",
                      (s: string) => Text.Trim(s))

  predicate Dash(arg: string) {
    arg != "" && arg[0] == '-'
  }

  /** Something a flag can take as its value. */
  predicate IsValue(c: Cli, arg: string) {
    c.trim(arg) != "" && !Dash(arg)
  }

  /** The form `--flag=value`. */
  predicate IsInline(flag: string, arg: string) {
    flag + "=" <= arg
  }

  function InlineValue(flag: string, arg: string): string
    requires IsInline(flag, arg)
  {
    arg[|flag| + 1..]
  }

  predicate HasValue(c: Cli, args: seq<string>, i: nat) {
    i + 1 < |args| && IsValue(c, args[i + 1])
  }

  /** Flags that cannot be taken for one another, and values that are values. */
  ghost predicate Sound(c: Cli) {
    && Dash(c.legacy) && Dash(c.mode) && Dash(c.sources) && IsValue(c, c.user) && IsValue(c, c.bypass)
    && c.legacy != c.mode && c.mode != c.sources && c.sources != c.legacy
    && !IsInline(c.mode, c.sources + "=") && !IsInline(c.sources, c.mode + "=")
    && !IsInline(c.sources, c.legacy) && !IsInline(c.mode, c.legacy)
    && forall v :: c.trim(c.trim(v)) == c.trim(v)
  }

  lemma {:induction false} NotInline(flag: string, arg: string, k: nat)
    requires k < |flag| && k < |arg| && flag[k] != arg[k]
    ensures !IsInline(flag, arg)
  {
    assert (flag + "=")[k] == flag[k];
  }

  /** Flags that differ in their third character, values without white space or dash, and JavaScript's trimming. */
  lemma {:induction false} SoundWhen(c: Cli)
    requires |c.legacy| > 2 && |c.mode| > 2 && |c.sources| > 2
    requires c.legacy[0] == c.mode[0] == c.sources[0] == '-'
    requires c.legacy[2] != c.mode[2] && c.mode[2] != c.sources[2] && c.sources[2] != c.legacy[2]
    requires IsWord(c.user) && IsWord(c.bypass) && forall v :: c.trim(v) == Text.Trim(v)
    ensures Sound(c)
  {
    NotInline(c.mode, c.sources + "=", 2);
    NotInline(c.sources, c.mode + "=", 2);
    NotInline(c.sources, c.legacy, 2);
    NotInline(c.mode, c.legacy, 2);
    Text.TrimKeeps(c.user);
    Text.TrimKeeps(c.bypass);
    forall v ensures c.trim(c.trim(v)) == c.trim(v) {
      Text.TrimTwice(v);
    }
  }

  predicate IsWord(s: string) {
    s != "" && s[0] != '-' && !Text.IsSpace(s[0]) && !Text.IsSpace(s[|s| - 1])
  }

  lemma {:induction false} ClaudeIsSound()
    ensures Sound(CLAUDE)
  {
    assert IsWord(CLAUDE.user);
    assert IsWord(CLAUDE.bypass);
    SoundWhen(CLAUDE);
  }

  /** What holds of one argument for the other flag. */
  lemma {:induction false} FlagsApart(c: Cli, arg: string)
    requires Sound(c)
    ensures IsInline(c.mode, arg) ==>
        arg != c.sources && !IsInline(c.sources, arg) && Dash(arg) && arg != c.legacy && arg != c.mode
    ensures IsInline(c.sources, arg) ==>
        arg != c.mode && !IsInline(c.mode, arg) && Dash(arg) && arg != c.legacy && arg != c.sources
    ensures !IsInline(c.mode, c.sources) && !IsInline(c.sources, c.mode)
  {
    assert IsInline(c.mode, arg) ==> arg[0] == (c.mode + "=")[0];
    assert IsInline(c.sources, arg) ==> arg[0] == (c.sources + "=")[0];
  }

  // ---------------------------------------------------------------- setting sources

  /** What the turn at `i` puts out. */
  function SourcesPiece(c: Cli, args: seq<string>, i: nat): seq<string>
    requires i < |args|
  {
    if args[i] == c.sources then (if HasValue(c, args, i) then [c.sources, c.user] else [])
    else if IsInline(c.sources, args[i]) then [c.sources + "=" + c.user]
    else [args[i]]
  }

  /** The turn after `i`: a flag takes its value with it. */
  function After(c: Cli, flag: string, args: seq<string>, i: nat): (next: nat)
    requires i < |args|
    ensures i < next <= |args|
  {
    if args[i] == flag && HasValue(c, args, i) then i + 2 else i + 1
  }

  function SourcesFrom(c: Cli, args: seq<string>, i: nat): seq<string>
    decreases |args| - i
  {
    if i >= |args| then [] else SourcesPiece(c, args, i) + SourcesFrom(c, args, After(c, c.sources, args, i))
  }

  ghost predicate HasSources(c: Cli, args: seq<string>) {
    exists i :: 0 <= i < |args| && (args[i] == c.sources || IsInline(c.sources, args[i]))
  }

  ghost function Sources(c: Cli, args: seq<string>): seq<string> {
    var kept := SourcesFrom(c, args, 0);
    if HasSources(c, kept) then kept else kept + [c.sources, c.user]
  }

  /** A setting-sources flag here carries the value user. */
  ghost predicate SourcesOk(c: Cli, args: seq<string>, i: nat)
    requires i < |args|
  {
    && (args[i] == c.sources ==> i + 1 < |args| && args[i + 1] == c.user)
    && (IsInline(c.sources, args[i]) ==> args[i] == c.sources + "=" + c.user)
  }

  ghost predicate SourcesNormal(c: Cli, args: seq<string>) {
    forall i {:trigger SourcesOk(c, args, i)} :: 0 <= i < |args| ==> SourcesOk(c, args, i)
  }

  lemma {:induction false} SourcesNormalConcat(c: Cli, a: seq<string>, b: seq<string>)
    requires SourcesNormal(c, a) && SourcesNormal(c, b)
    ensures SourcesNormal(c, a + b)
  {
    forall i | 0 <= i < |a + b| ensures SourcesOk(c, a + b, i) {
      if i < |a| {
        assert SourcesOk(c, a, i);
      } else {
        assert SourcesOk(c, b, i - |a|);
      }
    }
  }

  lemma {:induction false} SourcesPairNormal(c: Cli)
    requires Sound(c)
    ensures SourcesNormal(c, [c.sources, c.user]) && SourcesNormal(c, [c.sources + "=" + c.user])
  {
    FlagsApart(c, c.user);
    FlagsApart(c, c.sources);
    FlagsApart(c, c.sources + "=" + c.user);
    assert c.sources + "=" + c.user == (c.sources + "=") + c.user;
  }

  lemma {:induction false} SourcesFromNormal(c: Cli, args: seq<string>, i: nat)
    requires Sound(c)
    ensures SourcesNormal(c, SourcesFrom(c, args, i))
    decreases |args| - i
  {
    if i < |args| {
      SourcesFromNormal(c, args, After(c, c.sources, args, i));
      SourcesPieceNormal(c, args, i);
      SourcesNormalConcat(c, SourcesPiece(c, args, i), SourcesFrom(c, args, After(c, c.sources, args, i)));
    }
  }

  lemma {:induction false} SourcesPieceNormal(c: Cli, args: seq<string>, i: nat)
    requires Sound(c) && i < |args|
    ensures SourcesNormal(c, SourcesPiece(c, args, i))
  {
    SourcesPairNormal(c);
  }

  /** After the pass there is a setting-sources flag, and every one carries the value user. */
  lemma {:induction false} SourcesAreUser(c: Cli, args: seq<string>)
    requires Sound(c)
    ensures SourcesNormal(c, Sources(c, args)) && HasSources(c, Sources(c, args))
  {
    var kept := SourcesFrom(c, args, 0);
    SourcesFromNormal(c, args, 0);
    SourcesPairNormal(c);
    SourcesNormalConcat(c, kept, [c.sources, c.user]);
    assert (kept + [c.sources, c.user])[|kept|] == c.sources;
  }

  lemma {:induction false} SourcesFromFixes(c: Cli, args: seq<string>, i: nat)
    requires Sound(c) && SourcesNormal(c, args) && i <= |args|
    ensures SourcesFrom(c, args, i) == args[i..]
    decreases |args| - i
  {
    if i < |args| {
      var next := After(c, c.sources, args, i);
      SourcesFromFixes(c, args, next);
      assert SourcesOk(c, args, i);
      assert SourcesPiece(c, args, i) == args[i..next];
      SliceJoin(args, i, next, |args|);
      assert args[i..|args|] == args[i..] && args[next..|args|] == args[next..];
    }
  }

  lemma {:induction false} SourcesFixes(c: Cli, args: seq<string>)
    requires Sound(c) && SourcesNormal(c, args) && HasSources(c, args)
    ensures Sources(c, args) == args
  {
    SourcesFromFixes(c, args, 0);
    assert args[0..] == args;
  }

  // ---------------------------------------------------------------- permission mode

  /** The value of an inline permission mode, if it is one. */
  predicate IsModeValue(c: Cli, value: string) {
    c.trim(value) != "" && !Dash(c.trim(value))
  }

  /** What the turn at `i` puts out. */
  function PermissionPiece(c: Cli, args: seq<string>, i: nat): seq<string>
    requires i < |args|
  {
    if args[i] == c.legacy then []
    else if args[i] == c.mode then (if HasValue(c, args, i) then [c.mode, args[i + 1]] else [])
    else if IsInline(c.mode, args[i]) then
      var value := InlineValue(c.mode, args[i]);
      if IsModeValue(c, value) then [c.mode + "=" + c.trim(value)] else []
    else [args[i]]
  }

  function PermissionFrom(c: Cli, args: seq<string>, i: nat): seq<string>
    decreases |args| - i
  {
    if i >= |args| then [] else PermissionPiece(c, args, i) + PermissionFrom(c, args, After(c, c.mode, args, i))
  }

  ghost predicate HasMode(c: Cli, args: seq<string>) {
    exists i :: 0 <= i < |args| && (args[i] == c.mode || IsInline(c.mode, args[i]))
  }

  ghost function Permission(c: Cli, mode: Option<string>, args: seq<string>): seq<string> {
    var kept := PermissionFrom(c, args, 0);
    if mode.Some? && !HasMode(c, kept) then kept + [c.mode, mode.value] else kept
  }

  /** No legacy flag here, and a permission mode carries a value. */
  ghost predicate PermissionOk(c: Cli, args: seq<string>, i: nat)
    requires i < |args|
  {
    && args[i] != c.legacy
    && (args[i] == c.mode ==> HasValue(c, args, i))
    && (IsInline(c.mode, args[i]) ==>
          IsModeValue(c, InlineValue(c.mode, args[i]))
              && c.trim(InlineValue(c.mode, args[i])) == InlineValue(c.mode, args[i]))
  }

  ghost predicate PermissionNormal(c: Cli, args: seq<string>) {
    forall i {:trigger PermissionOk(c, args, i)} :: 0 <= i < |args| ==> PermissionOk(c, args, i)
  }

  lemma {:induction false} PermissionNormalConcat(c: Cli, a: seq<string>, b: seq<string>)
    requires PermissionNormal(c, a) && PermissionNormal(c, b)
    ensures PermissionNormal(c, a + b)
  {
    forall i | 0 <= i < |a + b| ensures PermissionOk(c, a + b, i) {
      if i < |a| {
        assert PermissionOk(c, a, i);
      } else {
        assert PermissionOk(c, b, i - |a|);
      }
    }
  }

  lemma {:induction false} ModePairNormal(c: Cli, value: string)
    requires Sound(c) && IsValue(c, value)
    ensures PermissionNormal(c, [c.mode, value])
  {
    FlagsApart(c, value);
    FlagsApart(c, c.mode);
  }

  lemma {:induction false} ModeInlineNormal(c: Cli, value: string)
    requires Sound(c) && IsModeValue(c, value)
    ensures PermissionNormal(c, [c.mode + "=" + c.trim(value)])
  {
    var arg := c.mode + "=" + c.trim(value);
    assert IsInline(c.mode, arg);
    FlagsApart(c, arg);
    assert InlineValue(c.mode, arg) == c.trim(value);
  }

  lemma {:induction false} PermissionPieceNormal(c: Cli, args: seq<string>, i: nat)
    requires Sound(c) && i < |args|
    ensures PermissionNormal(c, PermissionPiece(c, args, i))
  {
    if args[i] == c.mode {
      if HasValue(c, args, i) {
        ModePairNormal(c, args[i + 1]);
      }
    } else if IsInline(c.mode, args[i]) {
      if IsModeValue(c, InlineValue(c.mode, args[i])) {
        ModeInlineNormal(c, InlineValue(c.mode, args[i]));
      }
    }
  }

  lemma {:induction false} PermissionFromNormal(c: Cli, args: seq<string>, i: nat)
    requires Sound(c)
    ensures PermissionNormal(c, PermissionFrom(c, args, i))
    decreases |args| - i
  {
    if i < |args| {
      PermissionFromNormal(c, args, After(c, c.mode, args, i));
      PermissionPieceNormal(c, args, i);
      PermissionNormalConcat(c, PermissionPiece(c, args, i), PermissionFrom(c, args, After(c, c.mode, args, i)));
    }
  }

  /** After the pass the legacy flag is gone, every mode has a value, and a wanted mode is there. */
  lemma {:induction false} ModesHaveValues(c: Cli, mode: Option<string>, args: seq<string>)
    requires Sound(c) && (mode.Some? ==> IsValue(c, mode.value))
    ensures PermissionNormal(c, Permission(c, mode, args))
    ensures mode.Some? ==> HasMode(c, Permission(c, mode, args))
  {
    var kept := PermissionFrom(c, args, 0);
    PermissionFromNormal(c, args, 0);
    if mode.Some? {
      ModePairNormal(c, mode.value);
      PermissionNormalConcat(c, kept, [c.mode, mode.value]);
      assert (kept + [c.mode, mode.value])[|kept|] == c.mode;
    }
  }

  lemma {:induction false} PermissionPieceFixes(c: Cli, args: seq<string>, i: nat)
    requires i < |args| && PermissionOk(c, args, i)
    ensures PermissionPiece(c, args, i) == args[i..After(c, c.mode, args, i)]
  {
    if args[i] != c.mode && IsInline(c.mode, args[i]) {
      assert args[i] == c.mode + "=" + InlineValue(c.mode, args[i]);
    }
  }

  lemma {:induction false} PermissionFromFixes(c: Cli, args: seq<string>, i: nat)
    requires PermissionNormal(c, args) && i <= |args|
    ensures PermissionFrom(c, args, i) == args[i..]
    decreases |args| - i
  {
    if i < |args| {
      PermissionFromFixes(c, args, After(c, c.mode, args, i));
      assert PermissionOk(c, args, i);
      PermissionPieceFixes(c, args, i);
      SliceJoin(args, i, After(c, c.mode, args, i), |args|);
      assert args[i..|args|] == args[i..]
          && args[After(c, c.mode, args, i)..|args|] == args[After(c, c.mode, args, i)..];
    }
  }

  lemma {:induction false} PermissionFixes(c: Cli, mode: Option<string>, args: seq<string>)
    requires Sound(c) && PermissionNormal(c, args) && (mode.Some? ==> HasMode(c, args))
    ensures Permission(c, mode, args) == args
  {
    PermissionFromFixes(c, args, 0);
    assert args[0..] == args;
  }

  // ---------------------------------------------------------------- the second pass keeps what the first did

  /** A position that is not the value of a setting-sources flag. */
  ghost predicate AtFlag(c: Cli, args: seq<string>, i: nat) {
    i <= |args| && (0 < i ==> args[i - 1] != c.sources)
  }

  /** Away from setting-sources flags the permission pass writes none. */
  lemma {:induction false} PermissionPieceHasNoSources(c: Cli, args: seq<string>, i: nat)
    requires Sound(c) && i < |args| && args[i] != c.sources && SourcesOk(c, args, i)
    ensures SourcesNormal(c, PermissionPiece(c, args, i))
    ensures AtFlag(c, args, After(c, c.mode, args, i))
  {
    FlagsApart(c, args[i]);
    if args[i] == c.mode {
      if HasValue(c, args, i) {
        FlagsApart(c, args[i + 1]);
      }
    } else if IsInline(c.mode, args[i]) {
      var arg := c.mode + "=" + c.trim(InlineValue(c.mode, args[i]));
      assert IsInline(c.mode, arg);
      FlagsApart(c, arg);
    }
  }

  lemma {:induction false} PermissionFromKeepsSources(c: Cli, args: seq<string>, i: nat)
    requires Sound(c) && SourcesNormal(c, args) && AtFlag(c, args, i)
    ensures SourcesNormal(c, PermissionFrom(c, args, i))
    decreases |args| - i
  {
    if i < |args| {
      assert SourcesOk(c, args, i);
      if args[i] == c.sources {
        UserStays(c, args, i);
        PermissionFromKeepsSources(c, args, i + 2);
        SourcesPairNormal(c);
        SourcesNormalConcat(c, [c.sources, c.user], PermissionFrom(c, args, i + 2));
      } else {
        var next := After(c, c.mode, args, i);
        PermissionPieceHasNoSources(c, args, i);
        PermissionFromKeepsSources(c, args, next);
        SourcesNormalConcat(c, PermissionPiece(c, args, i), PermissionFrom(c, args, next));
      }
    }
  }

  /** A setting-sources flag and its value pass the permission pass side by side. */
  lemma {:induction false} UserStays(c: Cli, args: seq<string>, i: nat)
    requires Sound(c) && i < |args| && SourcesOk(c, args, i) && args[i] == c.sources
    ensures i + 2 <= |args| && args[i + 1] == c.user && AtFlag(c, args, i + 2)
    ensures PermissionFrom(c, args, i) == [c.sources, c.user] + PermissionFrom(c, args, i + 2)
  {
    FlagsApart(c, c.sources);
    FlagsApart(c, c.user);
    assert PermissionPiece(c, args, i) == [c.sources] && PermissionPiece(c, args, i + 1) == [c.user];
    assert PermissionFrom(c, args, i + 1) == [c.user] + PermissionFrom(c, args, i + 2);
    assert [c.sources] + ([c.user] + PermissionFrom(c, args, i + 2))
        == [c.sources, c.user] + PermissionFrom(c, args, i + 2);
  }

  lemma {:induction false} SourcesInConcat(c: Cli, a: seq<string>, b: seq<string>)
    ensures HasSources(c, a + b) <==> HasSources(c, a) || HasSources(c, b)
  {
    if HasSources(c, a) {
      var i :| 0 <= i < |a| && (a[i] == c.sources || IsInline(c.sources, a[i]));
      assert (a + b)[i] == a[i];
    }
    if HasSources(c, b) {
      var i :| 0 <= i < |b| && (b[i] == c.sources || IsInline(c.sources, b[i]));
      assert (a + b)[|a| + i] == b[i];
    }
  }

  /** A setting-sources flag survives the permission pass. */
  lemma {:induction false} PermissionFromKeepsFlag(c: Cli, args: seq<string>, i: nat, k: nat)
    requires Sound(c) && SourcesNormal(c, args) && AtFlag(c, args, i) && i <= k < |args|
    requires args[k] == c.sources || IsInline(c.sources, args[k])
    ensures HasSources(c, PermissionFrom(c, args, i))
    decreases |args| - i
  {
    assert SourcesOk(c, args, i);
    var next := After(c, c.mode, args, i);
    SourcesInConcat(c, PermissionPiece(c, args, i), PermissionFrom(c, args, next));
    if args[i] == c.sources || i == k {
      FlagsApart(c, args[i]);
      assert PermissionPiece(c, args, i)[0] == args[i];
    } else {
      if next == i + 2 {
        FlagsApart(c, args[i + 1]);
      }
      PermissionPieceHasNoSources(c, args, i);
      PermissionFromKeepsFlag(c, args, next, k);
    }
  }

  lemma {:induction false} PermissionKeepsSources(c: Cli, mode: Option<string>, args: seq<string>)
    requires Sound(c) && SourcesNormal(c, args) && HasSources(c, args) && (mode.Some? ==> IsValue(c, mode.value))
    ensures SourcesNormal(c, Permission(c, mode, args)) && HasSources(c, Permission(c, mode, args))
  {
    var kept := PermissionFrom(c, args, 0);
    PermissionFromKeepsSources(c, args, 0);
    var k :| 0 <= k < |args| && (args[k] == c.sources || IsInline(c.sources, args[k]));
    PermissionFromKeepsFlag(c, args, 0, k);
    if mode.Some? {
      var pair := [c.mode, mode.value];
      FlagsApart(c, c.mode);
      FlagsApart(c, mode.value);
      assert SourcesNormal(c, pair);
      SourcesNormalConcat(c, kept, pair);
      var j :| 0 <= j < |kept| && (kept[j] == c.sources || IsInline(c.sources, kept[j]));
      assert (kept + pair)[j] == kept[j];
    }
  }

  // ---------------------------------------------------------------- the whole normaliser

  ghost function Normalize(c: Cli, mode: Option<string>, args: seq<string>): seq<string> {
    Permission(c, mode, Sources(c, args))
  }

  /**
   What a normalised list looks like: at least one setting-sources flag and only the value
   user for it, no legacy flag, a value for every permission mode, and the wanted mode there.
   */
  lemma {:induction false} Normalized(mode: Option<string>, args: seq<string>)
    requires mode == None || mode == Some(CLAUDE.bypass)
    ensures SourcesNormal(CLAUDE, Normalize(CLAUDE, mode, args)) && HasSources(CLAUDE, Normalize(CLAUDE, mode, args))
    ensures PermissionNormal(CLAUDE, Normalize(CLAUDE, mode, args))
    ensures mode.Some? ==> HasMode(CLAUDE, Normalize(CLAUDE, mode, args))
  {
    ClaudeIsSound();
    NormalizedBy(CLAUDE, mode, args);
  }

  lemma {:induction false} NormalizedBy(c: Cli, mode: Option<string>, args: seq<string>)
    requires Sound(c) && (mode.Some? ==> IsValue(c, mode.value))
    ensures SourcesNormal(c, Normalize(c, mode, args)) && HasSources(c, Normalize(c, mode, args))
    ensures PermissionNormal(c, Normalize(c, mode, args)) && (mode.Some? ==> HasMode(c, Normalize(c, mode, args)))
    ensures Normalize(c, mode, Normalize(c, mode, args)) == Normalize(c, mode, args)
  {
    SourcesAreUser(c, args);
    PermissionKeepsSources(c, mode, Sources(c, args));
    ModesHaveValues(c, mode, Sources(c, args));
    SourcesFixes(c, Normalize(c, mode, args));
    PermissionFixes(c, mode, Normalize(c, mode, args));
  }

  /** An argument list the configuration may lack. */
  ghost function NormalizeConfigured(c: Cli, mode: Option<string>, args: Option<seq<string>>): Option<seq<string>> {
    match args
    case None => if mode.Some? then Some([c.mode, mode.value]) else None
    case Some(a) => Some(Normalize(c, mode, a))
  }

  lemma {:induction false} PairGainsSources(c: Cli, mode: string)
    requires Sound(c) && IsValue(c, mode)
    ensures Normalize(c, Some(mode), [c.mode, mode]) != [c.mode, mode]
  {
    NormalizedBy(c, Some(mode), [c.mode, mode]);
    FlagsApart(c, c.mode);
    FlagsApart(c, mode);
  }

  /** Normalising twice is normalising once, except that a missing list first only gains the wanted mode. */
  lemma {:induction false} NormalizingTwice(mode: Option<string>, args: Option<seq<string>>)
    requires mode == None || mode == Some(CLAUDE.bypass)
    ensures NormalizeConfigured(CLAUDE, mode, NormalizeConfigured(CLAUDE, mode, args))
        == NormalizeConfigured(CLAUDE, mode, args)
      <==> args.Some? || mode.None?
  {
    ClaudeIsSound();
    if args.Some? {
      NormalizedBy(CLAUDE, mode, args.value);
    } else if mode.Some? {
      PairGainsSources(CLAUDE, mode.value);
    }
  }

  // ---------------------------------------------------------------- everything else stays

  /** The arguments that are no setting-sources flag and no value of one. */
  function NoSources(c: Cli, args: seq<string>, i: nat): seq<string>
    decreases |args| - i
  {
    if i >= |args| then []
    else if args[i] == c.sources then NoSources(c, args, if HasValue(c, args, i) then i + 2 else i + 1)
    else if IsInline(c.sources, args[i]) then NoSources(c, args, i + 1)
    else [args[i]] + NoSources(c, args, i + 1)
  }

  /** The arguments that are no permission flag and no value of one. */
  function NoPermission(c: Cli, args: seq<string>, i: nat): seq<string>
    decreases |args| - i
  {
    if i >= |args| then []
    else if args[i] == c.legacy then NoPermission(c, args, i + 1)
    else if args[i] == c.mode then NoPermission(c, args, if HasValue(c, args, i) then i + 2 else i + 1)
    else if IsInline(c.mode, args[i]) then NoPermission(c, args, i + 1)
    else [args[i]] + NoPermission(c, args, i + 1)
  }

  lemma {:induction false} NoSourcesStep(c: Cli, piece: seq<string>, rest: seq<string>)
    requires Sound(c)
    requires piece == [c.sources, c.user] || piece == [c.sources + "=" + c.user]
        || (|piece| == 1 && piece[0] != c.sources)
    ensures NoSources(c, piece + rest, 0) ==
            (if |piece| == 1 && !IsInline(c.sources, piece[0]) then piece else []) + NoSources(c, piece + rest, |piece|)
  {
    FlagsApart(c, c.sources + "=" + c.user);
    assert c.sources + "=" + c.user == (c.sources + "=") + c.user;
  }

  lemma {:induction false} NoSourcesShift(c: Cli, a: seq<string>, b: seq<string>, i: nat)
    requires i <= |b|
    ensures NoSources(c, a + b, |a| + i) == NoSources(c, b, i)
    decreases |b| - i
  {
    if i < |b| {
      assert (a + b)[|a| + i] == b[i];
      assert i + 1 < |b| ==> (a + b)[|a| + i + 1] == b[i + 1];
      NoSourcesShift(c, a, b, i + 1);
      if i + 2 <= |b| {
        NoSourcesShift(c, a, b, i + 2);
      }
    }
  }

  /** What a turn puts out, read again, is what the turn read, as far as other arguments go. */
  lemma {:induction false} SourcesPieceReread(c: Cli, args: seq<string>, i: nat, rest: seq<string>)
    requires Sound(c) && i < |args|
    ensures NoSources(c, SourcesPiece(c, args, i) + rest, 0) ==
            (if args[i] != c.sources && !IsInline(c.sources, args[i]) then [args[i]] else []) + NoSources(c, rest, 0)
  {
    var piece := SourcesPiece(c, args, i);
    FlagsApart(c, args[i]);
    NoSourcesShift(c, piece, rest, 0);
    if piece == [] {
      assert piece + rest == rest;
    } else {
      InlineUser(c);
      NoSourcesStep(c, piece, rest);
    }
  }

  lemma {:induction false} InlineUser(c: Cli)
    ensures IsInline(c.sources, c.sources + "=" + c.user)
  {
    assert c.sources + "=" + c.user == (c.sources + "=") + c.user;
  }

  lemma {:induction false} SourcesFromKeepsOthers(c: Cli, args: seq<string>, i: nat)
    requires Sound(c)
    ensures NoSources(c, SourcesFrom(c, args, i), 0) == NoSources(c, args, i)
    decreases |args| - i
  {
    if i < |args| {
      var next := After(c, c.sources, args, i);
      SourcesFromKeepsOthers(c, args, next);
      SourcesPieceReread(c, args, i, SourcesFrom(c, args, next));
    }
  }

  lemma {:induction false} NoSourcesOfPlain(c: Cli, plain: seq<string>, tail: seq<string>, i: nat)
    requires i <= |plain| && !HasSources(c, plain)
    ensures NoSources(c, plain + tail, i) == plain[i..] + NoSources(c, tail, 0)
    decreases |plain| - i
  {
    if i < |plain| {
      NoSourcesOfPlain(c, plain, tail, i + 1);
      assert (plain + tail)[i] == plain[i];
      assert plain[i..] == [plain[i]] + plain[i + 1..];
    } else {
      NoSourcesShift(c, plain, tail, 0);
    }
  }

  /** Restricting setting sources leaves all other arguments, in order. */
  lemma {:induction false} SourcesKeepOthers(c: Cli, args: seq<string>)
    requires Sound(c)
    ensures NoSources(c, Sources(c, args), 0) == NoSources(c, args, 0)
  {
    var kept, pair := SourcesFrom(c, args, 0), [c.sources, c.user];
    SourcesFromKeepsOthers(c, args, 0);
    if !HasSources(c, kept) {
      NoSourcesOfPlain(c, kept, pair, 0);
      NoSourcesOfPlain(c, kept, [], 0);
      assert kept + [] == kept;
      assert pair + [] == pair;
      NoSourcesStep(c, pair, []);
    }
  }

  lemma {:induction false} NoPermissionStep(c: Cli, piece: seq<string>, rest: seq<string>)
    requires Sound(c)
    requires (|piece| == 2 && piece[0] == c.mode && IsValue(c, piece[1]))
        || (|piece| == 1 && piece[0] != c.mode && piece[0] != c.legacy)
    ensures NoPermission(c, piece + rest, 0) ==
            (if |piece| == 1 && !IsInline(c.mode, piece[0]) then piece else []) + NoPermission(c, piece + rest, |piece|)
  {
  }

  lemma {:induction false} NoPermissionShift(c: Cli, a: seq<string>, b: seq<string>, i: nat)
    requires i <= |b|
    ensures NoPermission(c, a + b, |a| + i) == NoPermission(c, b, i)
    decreases |b| - i
  {
    if i < |b| {
      assert (a + b)[|a| + i] == b[i];
      assert i + 1 < |b| ==> (a + b)[|a| + i + 1] == b[i + 1];
      NoPermissionShift(c, a, b, i + 1);
      if i + 2 <= |b| {
        NoPermissionShift(c, a, b, i + 2);
      }
    }
  }

  lemma {:induction false} PermissionPieceReread(c: Cli, args: seq<string>, i: nat, rest: seq<string>)
    requires Sound(c) && i < |args|
    ensures NoPermission(c, PermissionPiece(c, args, i) + rest, 0) ==
            (if args[i] == c.legacy || args[i] == c.mode || IsInline(c.mode, args[i]) then [] else [args[i]])
            + NoPermission(c, rest, 0)
  {
    var piece := PermissionPiece(c, args, i);
    NoPermissionShift(c, piece, rest, 0);
    if piece == [] {
      assert piece + rest == rest;
    } else if args[i] != c.mode && IsInline(c.mode, args[i]) {
      InlineModeIsDropped(c, InlineValue(c.mode, args[i]), rest);
    } else {
      NoPermissionStep(c, piece, rest);
    }
  }

  lemma {:induction false} PermissionFromKeepsOthers(c: Cli, args: seq<string>, i: nat)
    requires Sound(c)
    ensures NoPermission(c, PermissionFrom(c, args, i), 0) == NoPermission(c, args, i)
    decreases |args| - i
  {
    if i < |args| {
      var next := After(c, c.mode, args, i);
      PermissionFromKeepsOthers(c, args, next);
      FlagsApart(c, args[i]);
      PermissionPieceReread(c, args, i, PermissionFrom(c, args, next));
    }
  }

  lemma {:induction false} InlineModeIsDropped(c: Cli, value: string, rest: seq<string>)
    requires Sound(c)
    ensures NoPermission(c, [c.mode + "=" + c.trim(value)] + rest, 0) == NoPermission(c, rest, 0)
  {
    var arg := c.mode + "=" + c.trim(value);
    assert IsInline(c.mode, arg);
    FlagsApart(c, arg);
    NoPermissionStep(c, [arg], rest);
    NoPermissionShift(c, [arg], rest, 0);
  }

  lemma {:induction false} NoPermissionAt(c: Cli, plain: seq<string>, i: nat)
    requires i < |plain| && !HasMode(c, plain) && PermissionNormal(c, plain)
    ensures plain[i] != c.legacy && plain[i] != c.mode && !IsInline(c.mode, plain[i])
  {
    assert PermissionOk(c, plain, i);
  }

  lemma {:induction false} PlainStays(c: Cli, args: seq<string>, i: nat)
    requires i < |args| && args[i] != c.legacy && args[i] != c.mode && !IsInline(c.mode, args[i])
    ensures NoPermission(c, args, i) == [args[i]] + NoPermission(c, args, i + 1)
  {
  }

  lemma {:induction false} NoPermissionOfPlain(c: Cli, plain: seq<string>, tail: seq<string>, i: nat)
    requires i <= |plain| && !HasMode(c, plain) && PermissionNormal(c, plain)
    ensures NoPermission(c, plain + tail, i) == plain[i..] + NoPermission(c, tail, 0)
    decreases |plain| - i
  {
    if i < |plain| {
      NoPermissionOfPlain(c, plain, tail, i + 1);
      NoPermissionAt(c, plain, i);
      PlainStays(c, plain + tail, i);
      assert plain[i..] == [plain[i]] + plain[i + 1..];
      Assoc([plain[i]], plain[i + 1..], NoPermission(c, tail, 0));
    } else {
      NoPermissionShift(c, plain, tail, 0);
    }
  }

  /** Settling the permission mode leaves all other arguments, in order. */
  lemma {:induction false} PermissionKeepsOthers(c: Cli, mode: Option<string>, args: seq<string>)
    requires Sound(c) && (mode.Some? ==> IsValue(c, mode.value))
    ensures NoPermission(c, Permission(c, mode, args), 0) == NoPermission(c, args, 0)
  {
    var kept := PermissionFrom(c, args, 0);
    PermissionFromKeepsOthers(c, args, 0);
    PermissionFromNormal(c, args, 0);
    if mode.Some? && !HasMode(c, kept) {
      var pair := [c.mode, mode.value];
      NoPermissionOfPlain(c, kept, pair, 0);
      NoPermissionOfPlain(c, kept, [], 0);
      assert kept + [] == kept;
      assert pair + [] == pair;
      NoPermissionStep(c, pair, []);
    }
  }

  /** What an argument list says besides its setting sources: other arguments, and permission modes. */
  datatype Token = Plain(arg: string) | Mode(value: string)

  /** What an argument says that is not a flag followed by its value. */
  function TokensOf(c: Cli, arg: string): seq<Token> {
    if arg == c.sources || arg == c.mode || arg == c.legacy || IsInline(c.sources, arg) then []
    else if IsInline(c.mode, arg) then
      var value := InlineValue(c.mode, arg);
      if IsModeValue(c, value) then [Mode(c.trim(value))] else []
    else [Plain(arg)]
  }

  function Meant(c: Cli, args: seq<string>, i: nat): seq<Token>
    decreases |args| - i
  {
    if i >= |args| then []
    else if args[i] == c.sources && HasValue(c, args, i) then Meant(c, args, i + 2)
    else if args[i] == c.mode && HasValue(c, args, i) then [Mode(args[i + 1])] + Meant(c, args, i + 2)
    else TokensOf(c, args[i]) + Meant(c, args, i + 1)
  }

  lemma {:induction false} MeantShift(c: Cli, a: seq<string>, b: seq<string>, i: nat)
    requires i <= |b|
    ensures Meant(c, a + b, |a| + i) == Meant(c, b, i)
    decreases |b| - i
  {
    if i < |b| {
      assert (a + b)[|a| + i] == b[i];
      assert i + 1 < |b| ==> (a + b)[|a| + i + 1] == b[i + 1];
      MeantShift(c, a, b, i + 1);
      if i + 2 <= |b| {
        MeantShift(c, a, b, i + 2);
      }
    }
  }

  predicate StartsWithValue(c: Cli, args: seq<string>) {
    args != [] && IsValue(c, args[0])
  }

  lemma {:induction false} MeantOfSources(c: Cli, value: string, rest: seq<string>)
    requires IsValue(c, value)
    ensures Meant(c, [c.sources, value] + rest, 0) == Meant(c, rest, 0)
  {
    MeantShift(c, [c.sources, value], rest, 0);
  }

  lemma {:induction false} MeantOfMode(c: Cli, value: string, rest: seq<string>)
    requires IsValue(c, value) && c.mode != c.sources
    ensures Meant(c, [c.mode, value] + rest, 0) == [Mode(value)] + Meant(c, rest, 0)
  {
    MeantShift(c, [c.mode, value], rest, 0);
  }

  /** An argument that is no flag with its value behind it. */
  lemma {:induction false} MeantOfOne(c: Cli, arg: string, rest: seq<string>)
    requires !StartsWithValue(c, rest) || (arg != c.sources && arg != c.mode)
    ensures Meant(c, [arg] + rest, 0) == TokensOf(c, arg) + Meant(c, rest, 0)
  {
    MeantShift(c, [arg], rest, 0);
  }

  /** What the first pass puts after a flag without a value is no value either. */
  lemma {:induction false} NoValueAhead(c: Cli, args: seq<string>, i: nat, tail: seq<string>)
    requires Sound(c) && !StartsWithValue(c, tail) && (i < |args| ==> !IsValue(c, args[i]))
    ensures !StartsWithValue(c, SourcesFrom(c, args, i) + tail)
    decreases |args| - i
  {
    if i < |args| {
      var next := After(c, c.sources, args, i);
      if SourcesPiece(c, args, i) == [] {
        NoValueAhead(c, args, next, tail);
      } else {
        InlineUser(c);
        FlagsApart(c, c.sources + "=" + c.user);
        assert (SourcesFrom(c, args, i) + tail)[0] == SourcesPiece(c, args, i)[0];
      }
    } else {
      assert [] + tail == tail;
    }
  }

  /** One turn of the first pass, with all that follows it. */
  lemma {:induction false} SourcesFromSplit(c: Cli, args: seq<string>, i: nat, tail: seq<string>)
    requires i < |args|
    ensures SourcesFrom(c, args, i) + tail
        == SourcesPiece(c, args, i) + (SourcesFrom(c, args, After(c, c.sources, args, i)) + tail)
  {
    Assoc(SourcesPiece(c, args, i), SourcesFrom(c, args, After(c, c.sources, args, i)), tail);
  }

  lemma {:induction false} SourcesKeepMeaning(c: Cli, args: seq<string>, i: nat, tail: seq<string>)
    requires Sound(c) && !StartsWithValue(c, tail)
    ensures Meant(c, SourcesFrom(c, args, i) + tail, 0) == Meant(c, args, i) + Meant(c, tail, 0)
    decreases |args| - i
  {
    if i >= |args| {
      assert [] + tail == tail;
      assert [] + Meant(c, tail, 0) == Meant(c, tail, 0);
    } else if args[i] == c.mode && HasValue(c, args, i) {
      ModeAndValuePass(c, args, i, tail);
      FlagsApart(c, c.mode);
      SourcesKeepMeaning(c, args, i + 2, tail);
      MeantOfMode(c, args[i + 1], SourcesFrom(c, args, i + 2) + tail);
      Assoc([Mode(args[i + 1])], Meant(c, args, i + 2), Meant(c, tail, 0));
    } else {
      var next := After(c, c.sources, args, i);
      SourcesFromSplit(c, args, i, tail);
      SourcesKeepMeaning(c, args, next, tail);
      SourcesTurnKeepsMeaning(c, args, i, SourcesFrom(c, args, next) + tail, tail);
      Assoc(TokensAt(c, args, i), Meant(c, args, next), Meant(c, tail, 0));
      assert [] + Meant(c, args, next) == Meant(c, args, next);
    }
  }

  /** What a turn of the first pass says: nothing for a setting-sources flag with its value. */
  function TokensAt(c: Cli, args: seq<string>, i: nat): seq<Token>
    requires i < |args|
  {
    if args[i] == c.sources && HasValue(c, args, i) then [] else TokensOf(c, args[i])
  }

  /** The first pass leaves a permission mode and its value side by side. */
  lemma {:induction false} ModeAndValuePass(c: Cli, args: seq<string>, i: nat, tail: seq<string>)
    requires Sound(c) && i < |args| && args[i] == c.mode && HasValue(c, args, i)
    ensures SourcesFrom(c, args, i) + tail == [c.mode, args[i + 1]] + (SourcesFrom(c, args, i + 2) + tail)
  {
    FlagsApart(c, c.mode);
    FlagsApart(c, args[i + 1]);
    assert SourcesPiece(c, args, i) == [c.mode] && SourcesPiece(c, args, i + 1) == [args[i + 1]];
    assert SourcesFrom(c, args, i) == [c.mode] + ([args[i + 1]] + SourcesFrom(c, args, i + 2));
  }

  lemma {:induction false} SourcesTurnKeepsMeaning(
      c: Cli, args: seq<string>, i: nat, rest: seq<string>, tail: seq<string>)
    requires Sound(c) && i < |args| && !StartsWithValue(c, tail) && !(args[i] == c.mode && HasValue(c, args, i))
    requires rest == SourcesFrom(c, args, After(c, c.sources, args, i)) + tail
    ensures Meant(c, SourcesPiece(c, args, i) + rest, 0) == TokensAt(c, args, i) + Meant(c, rest, 0)
  {
    var arg := args[i];
    if arg == c.sources || IsInline(c.sources, arg) {
      SourcesSayNothing(c, args, i, rest);
    } else {
      FlagsApart(c, arg);
      if arg == c.mode {
        NoValueAhead(c, args, i + 1, tail);
      }
      MeantOfOne(c, arg, rest);
    }
  }

  lemma {:induction false} SourcesSayNothing(c: Cli, args: seq<string>, i: nat, rest: seq<string>)
    requires Sound(c) && i < |args| && (args[i] == c.sources || IsInline(c.sources, args[i]))
    ensures Meant(c, SourcesPiece(c, args, i) + rest, 0) == TokensAt(c, args, i) + Meant(c, rest, 0)
  {
    var arg, piece := args[i], SourcesPiece(c, args, i);
    FlagsApart(c, arg);
    assert [] + Meant(c, rest, 0) == Meant(c, rest, 0);
    if IsInline(c.sources, arg) {
      InlineUser(c);
      FlagsApart(c, c.sources + "=" + c.user);
      MeantOfOne(c, c.sources + "=" + c.user, rest);
    } else if HasValue(c, args, i) {
      MeantOfSources(c, c.user, rest);
    } else {
      assert piece + rest == rest;
    }
  }

  /** A setting-sources flag and its value go through the permission pass, and say nothing on either side. */
  lemma {:induction false} UserPasses(c: Cli, args: seq<string>, i: nat, tail: seq<string>)
    requires Sound(c) && i < |args| && SourcesOk(c, args, i) && args[i] == c.sources
    ensures i + 2 <= |args| && AtFlag(c, args, i + 2) && Meant(c, args, i) == Meant(c, args, i + 2)
    ensures Meant(c, PermissionFrom(c, args, i) + tail, 0) == Meant(c, PermissionFrom(c, args, i + 2) + tail, 0)
  {
    UserStays(c, args, i);
    Assoc([c.sources, c.user], PermissionFrom(c, args, i + 2), tail);
    MeantOfSources(c, c.user, PermissionFrom(c, args, i + 2) + tail);
  }

  lemma {:induction false} PermissionKeepsMeaning(c: Cli, args: seq<string>, i: nat, tail: seq<string>)
    requires Sound(c) && SourcesNormal(c, args) && AtFlag(c, args, i)
    ensures Meant(c, PermissionFrom(c, args, i) + tail, 0) == Meant(c, args, i) + Meant(c, tail, 0)
    decreases |args| - i
  {
    if i >= |args| {
      assert [] + tail == tail;
      assert [] + Meant(c, tail, 0) == Meant(c, tail, 0);
    } else {
      assert SourcesOk(c, args, i);
      if args[i] == c.sources {
        UserPasses(c, args, i, tail);
        PermissionKeepsMeaning(c, args, i + 2, tail);
      } else {
        PermissionTurnPasses(c, args, i, tail);
        PermissionKeepsMeaning(c, args, After(c, c.mode, args, i), tail);
        MeaningStep(c, args, i, tail);
      }
    }
  }

  lemma {:induction false} PermissionTurnPasses(c: Cli, args: seq<string>, i: nat, tail: seq<string>)
    requires Sound(c) && i < |args| && args[i] != c.sources && SourcesNormal(c, args)
    ensures var next := After(c, c.mode, args, i);
            && AtFlag(c, args, next) && Meant(c, args, i) == ModeTokensAt(c, args, i) + Meant(c, args, next)
            && Meant(c, PermissionFrom(c, args, i) + tail, 0) ==
               ModeTokensAt(c, args, i) + Meant(c, PermissionFrom(c, args, next) + tail, 0)
  {
    var next := After(c, c.mode, args, i);
    assert SourcesOk(c, args, i);
    PermissionPieceHasNoSources(c, args, i);
    Assoc(PermissionPiece(c, args, i), PermissionFrom(c, args, next), tail);
    PermissionTurnKeepsMeaning(c, args, i, PermissionFrom(c, args, next) + tail);
  }

  lemma {:induction false} MeaningStep(c: Cli, args: seq<string>, i: nat, tail: seq<string>)
    requires Sound(c) && i < |args| && args[i] != c.sources && SourcesNormal(c, args)
    requires var next := After(c, c.mode, args, i);
             Meant(c, PermissionFrom(c, args, next) + tail, 0) == Meant(c, args, next) + Meant(c, tail, 0)
    ensures Meant(c, PermissionFrom(c, args, i) + tail, 0) == Meant(c, args, i) + Meant(c, tail, 0)
  {
    PermissionTurnPasses(c, args, i, tail);
    Assoc(ModeTokensAt(c, args, i), Meant(c, args, After(c, c.mode, args, i)), Meant(c, tail, 0));
  }

  /** What a turn of the second pass says. */
  function ModeTokensAt(c: Cli, args: seq<string>, i: nat): seq<Token>
    requires i < |args|
  {
    if args[i] == c.mode && HasValue(c, args, i) then [Mode(args[i + 1])] else TokensOf(c, args[i])
  }

  lemma {:induction false} PermissionTurnKeepsMeaning(c: Cli, args: seq<string>, i: nat, rest: seq<string>)
    requires Sound(c) && i < |args| && args[i] != c.sources
    ensures Meant(c, PermissionPiece(c, args, i) + rest, 0) == ModeTokensAt(c, args, i) + Meant(c, rest, 0)
  {
    var arg, piece := args[i], PermissionPiece(c, args, i);
    FlagsApart(c, arg);
    if piece == [] {
      assert piece + rest == rest;
      assert [] + Meant(c, rest, 0) == Meant(c, rest, 0);
    } else if arg == c.mode {
      FlagsApart(c, c.mode);
      MeantOfMode(c, args[i + 1], rest);
    } else if IsInline(c.mode, arg) {
      ShortenedMode(c, InlineValue(c.mode, arg), rest);
    } else {
      MeantOfOne(c, arg, rest);
    }
  }

  lemma {:induction false} ShortenedMode(c: Cli, value: string, rest: seq<string>)
    requires Sound(c) && IsModeValue(c, value)
    ensures Meant(c, [c.mode + "=" + c.trim(value)] + rest, 0) == [Mode(c.trim(value))] + Meant(c, rest, 0)
  {
    var shortened := c.mode + "=" + c.trim(value);
    assert IsInline(c.mode, shortened) && InlineValue(c.mode, shortened) == c.trim(value);
    FlagsApart(c, shortened);
    MeantOfOne(c, shortened, rest);
  }

  predicate SaysMode(tokens: seq<Token>) {
    exists k :: 0 <= k < |tokens| && tokens[k].Mode?
  }

  /** A flag says its mode. */
  lemma {:induction false} FlagSaysMode(c: Cli, args: seq<string>, i: nat)
    requires Sound(c) && i < |args| && PermissionOk(c, args, i) && (args[i] == c.mode || IsInline(c.mode, args[i]))
    ensures SaysMode(Meant(c, args, i))
  {
    FlagsApart(c, args[i]);
    assert Meant(c, args, i)[0].Mode?;
  }

  /** In a list both passes have been over, a permission flag says a mode. */
  lemma {:induction false} FlagsSayModes(c: Cli, args: seq<string>, i: nat)
    requires Sound(c) && SourcesNormal(c, args) && PermissionNormal(c, args) && AtFlag(c, args, i)
    ensures SaysMode(Meant(c, args, i)) <==> HasModeFrom(c, args, i)
    decreases |args| - i
  {
    if i < |args| {
      assert SourcesOk(c, args, i) && PermissionOk(c, args, i);
      if args[i] == c.sources {
        UserSaysNothing(c, args, i);
        FlagsSayModes(c, args, i + 2);
      } else if args[i] == c.mode || IsInline(c.mode, args[i]) {
        FlagSaysMode(c, args, i);
      } else {
        FlagsSayModes(c, args, i + 1);
        MeantOfNoMode(c, args, i);
      }
    }
  }

  lemma {:induction false} UserSaysNothing(c: Cli, args: seq<string>, i: nat)
    requires Sound(c) && i < |args| && SourcesOk(c, args, i) && args[i] == c.sources
    ensures i + 2 <= |args| && AtFlag(c, args, i + 2) && Meant(c, args, i) == Meant(c, args, i + 2)
    ensures HasModeFrom(c, args, i) <==> HasModeFrom(c, args, i + 2)
  {
    UserStays(c, args, i);
    FlagsApart(c, args[i]);
    FlagsApart(c, args[i + 1]);
  }

  ghost predicate HasModeFrom(c: Cli, args: seq<string>, i: nat) {
    exists j :: i <= j < |args| && (args[j] == c.mode || IsInline(c.mode, args[j]))
  }

  lemma {:induction false} MeantOfNoMode(c: Cli, args: seq<string>, i: nat)
    requires i < |args| && args[i] != c.sources && args[i] != c.mode && !IsInline(c.mode, args[i])
    ensures SaysMode(Meant(c, args, i)) <==> SaysMode(Meant(c, args, i + 1))
  {
    var head, rest := TokensOf(c, args[i]), Meant(c, args, i + 1);
    if k :| 0 <= k < |rest| && rest[k].Mode? {
      assert (head + rest)[|head| + k].Mode?;
    }
    if k :| 0 <= k < |head + rest| && (head + rest)[k].Mode? {
      assert rest[k - |head|].Mode?;
    }
  }

  lemma {:induction false} PairMeans(c: Cli, value: string)
    requires IsValue(c, value) && c.mode != c.sources
    ensures Meant(c, [c.sources, value], 0) == [] && Meant(c, [c.mode, value], 0) == [Mode(value)]
  {
    MeantOfSources(c, value, []);
    MeantOfMode(c, value, []);
    assert [c.sources, value] + [] == [c.sources, value] && [c.mode, value] + [] == [c.mode, value];
  }

  lemma {:induction false} SourcesMean(c: Cli, args: seq<string>)
    requires Sound(c)
    ensures Meant(c, Sources(c, args), 0) == Meant(c, args, 0)
  {
    FlagsApart(c, c.mode);
    PairMeans(c, c.user);
    SourcesKeepMeaning(c, args, 0, []);
    SourcesKeepMeaning(c, args, 0, [c.sources, c.user]);
    assert SourcesFrom(c, args, 0) + [] == SourcesFrom(c, args, 0);
    assert Meant(c, args, 0) + [] == Meant(c, args, 0);
  }

  /**
   What a list says stays said: its permission modes, and every other argument; the wanted mode is
   added to a list without one.
   */
  lemma {:induction false} NormalizeKeepsMeaning(c: Cli, mode: Option<string>, args: seq<string>)
    requires Sound(c) && (mode.Some? ==> IsValue(c, mode.value))
    ensures Meant(c, Normalize(c, mode, args), 0) ==
            Meant(c, args, 0) + if mode.Some? && !SaysMode(Meant(c, args, 0)) then [Mode(mode.value)] else []
  {
    var restricted := Sources(c, args);
    var kept := PermissionFrom(c, restricted, 0);
    SourcesAreUser(c, args);
    SourcesMean(c, args);
    PermissionKeepsMeaning(c, restricted, 0, []);
    assert kept + [] == kept && Meant(c, restricted, 0) + [] == Meant(c, restricted, 0);
    PermissionFromNormal(c, restricted, 0);
    PermissionFromKeepsSources(c, restricted, 0);
    FlagsSayModes(c, kept, 0);
    assert HasModeFrom(c, kept, 0) <==> HasMode(c, kept);
    if mode.Some? {
      FlagsApart(c, c.mode);
      PairMeans(c, mode.value);
      PermissionKeepsMeaning(c, restricted, 0, [c.mode, mode.value]);
    }
  }

  /** The arguments that are neither kind of flag and no value of one. */
  function Others(tokens: seq<Token>): seq<string> {
    if tokens == [] then []
    else Others(tokens[..|tokens| - 1])
         + if tokens[|tokens| - 1].Plain? then [tokens[|tokens| - 1].arg] else []
  }

  /**
   What normalising takes out of the list it is given are setting sources, the legacy flag and
   permission flags without a value; the permission modes that were set and everything else
   are there afterwards, in order, with the wanted mode behind them if none was set. Each pass
   by itself takes out only its own kind.
   */
  lemma {:induction false} EverythingElseStays(mode: Option<string>, args: seq<string>)
    requires mode == None || mode == Some(CLAUDE.bypass)
    ensures NoSources(CLAUDE, Sources(CLAUDE, args), 0) == NoSources(CLAUDE, args, 0)
    ensures NoPermission(CLAUDE, Normalize(CLAUDE, mode, args), 0) == NoPermission(CLAUDE, Sources(CLAUDE, args), 0)
    ensures Meant(CLAUDE, Normalize(CLAUDE, mode, args), 0) ==
            Meant(CLAUDE, args, 0) + if mode.Some? && !SaysMode(Meant(CLAUDE, args, 0)) then [Mode(mode.value)] else []
    ensures Others(Meant(CLAUDE, Normalize(CLAUDE, mode, args), 0)) == Others(Meant(CLAUDE, args, 0))
  {
    ClaudeIsSound();
    NormalizeKeepsMeaning(CLAUDE, mode, args);
    assert Meant(CLAUDE, args, 0) + [] == Meant(CLAUDE, args, 0);
    var tokens := Meant(CLAUDE, args, 0);
    assert mode.Some? ==> (tokens + [Mode(mode.value)])[..|tokens|] == tokens;
    SourcesKeepOthers(CLAUDE, args);
    PermissionKeepsOthers(CLAUDE, mode, Sources(CLAUDE, args));
  }

  // ---------------------------------------------------------------- the normalisers

  /** The loop has put out `out` and goes on at `i`. */
  ghost predicate SourcesProgress(c: Cli, args: seq<string>, out: seq<string>, i: nat) {
    out + SourcesFrom(c, args, i) == SourcesFrom(c, args, 0)
  }

  lemma {:induction false} SourcesTurn(c: Cli, args: seq<string>, out: seq<string>, i: nat)
    requires Sound(c) && i < |args| && SourcesProgress(c, args, out, i)
    ensures SourcesProgress(c, args, out + SourcesPiece(c, args, i), After(c, c.sources, args, i))
    ensures HasSources(c, out + SourcesPiece(c, args, i)) <==>
            HasSources(c, out) || IsInline(c.sources, args[i]) || (args[i] == c.sources && HasValue(c, args, i))
  {
    var piece := SourcesPiece(c, args, i);
    Assoc(out, piece, SourcesFrom(c, args, After(c, c.sources, args, i)));
    SourcesInConcat(c, out, piece);
    PieceHasSources(c, args, i);
  }

  lemma {:induction false} PieceHasSources(c: Cli, args: seq<string>, i: nat)
    requires Sound(c) && i < |args|
    ensures HasSources(c, SourcesPiece(c, args, i)) <==>
        IsInline(c.sources, args[i]) || (args[i] == c.sources && HasValue(c, args, i))
  {
    var piece := SourcesPiece(c, args, i);
    FlagsApart(c, args[i]);
    FlagsApart(c, c.user);
    InlineUser(c);
    if piece != [] {
      assert piece[0] == args[i] || piece[0] == c.sources + "=" + c.user;
    }
  }

  method NormalizeSettingSourcesArgs(c: Cli, args: seq<string>) returns (normalized: seq<string>)
    requires Sound(c)
    ensures normalized == Sources(c, args)
  {
    normalized := [];
    var hasSettingSources, skipNext := false, false;
    for index := 0 to |args|
      invariant skipNext ==> index < |args|
      invariant SourcesProgress(c, args, normalized, if skipNext then index + 1 else index)
      invariant hasSettingSources <==> HasSources(c, normalized)
    {
      var arg := args[index];
      if skipNext {
        skipNext := false;
        continue;
      }
      SourcesTurn(c, args, normalized, index);
      if arg == c.sources {
        if HasValue(c, args, index) {
          hasSettingSources, skipNext := true, true;
          normalized := normalized + [arg, c.user];
        } else {
          assert normalized + [] == normalized;
        }
      } else if IsInline(c.sources, arg) {
        hasSettingSources := true;
        normalized := normalized + [c.sources + "=" + c.user];
      } else {
        normalized := normalized + [arg];
      }
    }
    assert normalized + [] == normalized;
    if !hasSettingSources {
      normalized := normalized + [c.sources, c.user];
    }
  }

  ghost predicate PermissionProgress(c: Cli, args: seq<string>, out: seq<string>, i: nat) {
    out + PermissionFrom(c, args, i) == PermissionFrom(c, args, 0)
  }

  lemma {:induction false} ModeInConcat(c: Cli, a: seq<string>, b: seq<string>)
    ensures HasMode(c, a + b) <==> HasMode(c, a) || HasMode(c, b)
  {
    if HasMode(c, a) {
      var i :| 0 <= i < |a| && (a[i] == c.mode || IsInline(c.mode, a[i]));
      assert (a + b)[i] == a[i];
    }
    if HasMode(c, b) {
      var i :| 0 <= i < |b| && (b[i] == c.mode || IsInline(c.mode, b[i]));
      assert (a + b)[|a| + i] == b[i];
    }
  }

  /** A turn that puts a permission mode out. */
  predicate PutsMode(c: Cli, args: seq<string>, i: nat)
    requires i < |args|
  {
    && args[i] != c.legacy
    && if args[i] == c.mode then HasValue(c, args, i)
       else IsInline(c.mode, args[i]) && IsModeValue(c, InlineValue(c.mode, args[i]))
  }

  lemma {:induction false} PermissionTurn(c: Cli, args: seq<string>, out: seq<string>, i: nat)
    requires Sound(c) && i < |args| && PermissionProgress(c, args, out, i)
    ensures PermissionProgress(c, args, out + PermissionPiece(c, args, i), After(c, c.mode, args, i))
    ensures HasMode(c, out + PermissionPiece(c, args, i)) <==> HasMode(c, out) || PutsMode(c, args, i)
  {
    var piece := PermissionPiece(c, args, i);
    Assoc(out, piece, PermissionFrom(c, args, After(c, c.mode, args, i)));
    ModeInConcat(c, out, piece);
    PieceHasMode(c, args, i);
  }

  lemma {:induction false} PieceHasMode(c: Cli, args: seq<string>, i: nat)
    requires Sound(c) && i < |args|
    ensures HasMode(c, PermissionPiece(c, args, i)) <==> PutsMode(c, args, i)
  {
    var piece := PermissionPiece(c, args, i);
    if PutsMode(c, args, i) {
      if args[i] == c.mode {
        assert piece[0] == c.mode;
      } else {
        var arg := c.mode + "=" + c.trim(InlineValue(c.mode, args[i]));
        assert IsInline(c.mode, arg) && piece[0] == arg;
      }
    }
  }

  /** The permission pass for a call that overrides the modes configured: they all go. */
  function Overridden(c: Cli, mode: Option<string>, args: seq<string>): seq<string> {
    NoPermission(c, args, 0) + if mode.Some? then [c.mode, mode.value] else []
  }

  /** Afterwards the wanted mode, if any, is the only permission flag, and everything else is there in order. */
  lemma {:induction false} OnlyWantedModeStays(c: Cli, mode: Option<string>, args: seq<string>)
    requires Sound(c) && (mode.Some? ==> IsValue(c, mode.value))
    ensures var out, n := Overridden(c, mode, args), |NoPermission(c, args, 0)|;
            && (forall i :: 0 <= i < n ==> out[i] != c.legacy && out[i] != c.mode && !IsInline(c.mode, out[i]))
            && (if mode.Some? then |out| == n + 2 && out[n] == c.mode && out[n + 1] == mode.value else |out| == n)
    ensures NoPermission(c, Overridden(c, mode, args), 0) == NoPermission(c, args, 0)
  {
    var kept := NoPermission(c, args, 0);
    NoPermissionIsFree(c, args, 0);
    NothingToDrop(c, kept, if mode.Some? then [c.mode, mode.value] else [], 0);
    assert kept[0..] == kept;
    if mode.Some? {
      assert NoPermission(c, [c.mode, mode.value], 0) == [];
    }
  }

  lemma {:induction false} NoPermissionIsFree(c: Cli, args: seq<string>, i: nat)
    ensures forall j {:trigger NoPermission(c, args, i)[j]} :: 0 <= j < |NoPermission(c, args, i)| ==>
              var arg := NoPermission(c, args, i)[j];
              arg != c.legacy && arg != c.mode && !IsInline(c.mode, arg)
    decreases |args| - i
  {
    if i < |args| {
      NoPermissionIsFree(c, args, if args[i] == c.mode && HasValue(c, args, i) then i + 2 else i + 1);
      NoPermissionIsFree(c, args, i + 1);
    }
  }

  lemma {:induction false} NothingToDrop(c: Cli, kept: seq<string>, pair: seq<string>, i: nat)
    requires i <= |kept|
    requires forall j :: 0 <= j < |kept| ==> kept[j] != c.legacy && kept[j] != c.mode && !IsInline(c.mode, kept[j])
    requires pair == [] || (|pair| == 2 && pair[0] == c.mode && c.mode != c.legacy && IsValue(c, pair[1]))
    ensures NoPermission(c, kept + pair, i) == kept[i..]
    decreases |kept| - i
  {
    if i < |kept| {
      NothingToDrop(c, kept, pair, i + 1);
    }
  }

  /** What one turn of the loop puts out. */
  function TurnPiece(c: Cli, overrides: bool, args: seq<string>, i: nat): seq<string>
    requires i < |args|
  {
    if overrides && (args[i] == c.mode || IsInline(c.mode, args[i])) then [] else PermissionPiece(c, args, i)
  }

  ghost predicate LoopKeeps(c: Cli, overrides: bool, args: seq<string>, out: seq<string>, hasMode: bool, i: nat) {
    if overrides then out + NoPermission(c, args, i) == NoPermission(c, args, 0)
    else PermissionProgress(c, args, out, i) && (hasMode <==> HasMode(c, out))
  }

  lemma {:induction false} LoopTurn(c: Cli, overrides: bool, args: seq<string>, out: seq<string>, hasMode: bool, i: nat)
    requires Sound(c) && i < |args| && LoopKeeps(c, overrides, args, out, hasMode, i)
    ensures LoopKeeps(c, overrides, args, out + TurnPiece(c, overrides, args, i), hasMode || PutsMode(c, args, i),
                      After(c, c.mode, args, i))
  {
    if overrides {
      Assoc(out, TurnPiece(c, overrides, args, i), NoPermission(c, args, After(c, c.mode, args, i)));
    } else {
      PermissionTurn(c, args, out, i);
    }
  }

  method NormalizePermissionArgs(c: Cli, args: seq<string>, mode: Option<string>, overrideExisting: bool)
    returns (normalized: seq<string>)
    requires Sound(c)
    ensures normalized == if overrideExisting then Overridden(c, mode, args) else Permission(c, mode, args)
  {
    normalized := [];
    var hasPermissionMode, skipNext := false, false;
    for index := 0 to |args|
      invariant skipNext ==> index < |args|
      invariant LoopKeeps(c, overrideExisting, args, normalized, hasPermissionMode,
                          if skipNext then index + 1 else index)
    {
      var arg := args[index];
      if skipNext {
        skipNext := false;
        continue;
      }
      LoopTurn(c, overrideExisting, args, normalized, hasPermissionMode, index);
      assert normalized + [] == normalized;
      if arg == c.legacy {
        continue;
      }
      if arg == c.mode {
        if HasValue(c, args, index) {
          hasPermissionMode, skipNext := true, true;
          if !overrideExisting {
            normalized := normalized + [arg, args[index + 1]];
          }
        }
      } else if IsInline(c.mode, arg) {
        var value := c.trim(InlineValue(c.mode, arg));
        if value != "" && !Dash(value) {
          hasPermissionMode := true;
          if !overrideExisting {
            normalized := normalized + [c.mode + "=" + value];
          }
        }
      } else {
        normalized := normalized + [arg];
      }
    }
    assert normalized + [] == normalized;
    if mode.Some? && (!hasPermissionMode || overrideExisting) {
      normalized := normalized + [c.mode, mode.value];
    }
  }

  /** Both passes over one configured list; `yolo` is the host's full-access policy. */
  method NormalizeBackendArgs(args: Option<seq<string>>, yolo: bool) returns (r: Option<seq<string>>)
    ensures r == NormalizeConfigured(CLAUDE, if yolo then Some(CLAUDE.bypass) else None, args)
  {
    ClaudeIsSound();
    var mode := if yolo then Some(CLAUDE.bypass) else None;
    if args.None? {
      return if mode.Some? then Some([CLAUDE.mode, mode.value]) else None;
    }
    var restricted := NormalizeSettingSourcesArgs(CLAUDE, args.value);
    var normalized := NormalizePermissionArgs(CLAUDE, restricted, mode, false);
    r := Some(normalized);
  }
}
