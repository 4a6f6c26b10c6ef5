/** Normalising the arguments of the Claude command line: permission mode and setting sources. */
module ClaudeArgs {
  import opened JsText

  type Args = seq<string>

  const SKIP := "--dangerously-skip-permissions"
  const MODE := "--permission-mode"
  const BYPASS := "bypassPermissions"
  const SOURCES := "--setting-sources"
  const USER := "user"
  const MODE_IS := "--permission-mode="
  const SOURCES_IS := "--setting-sources="
  const SOURCES_IS_USER := "--setting-sources=user"

  /** Can be the value of the flag before it. */
  predicate IsValue(arg: string) {
    !IsBlank(arg) && !StartsWith(arg, "-")
  }

  predicate HasValue(args: Args) {
    |args| > 1 && IsValue(args[1])
  }

  // ----- the two passes

  function PermissionPass(args: Args, hasMode: bool): Args
    decreases |args|
  {
    if args == [] then if hasMode then [] else [MODE, BYPASS]
    else if args[0] == SKIP then PermissionPass(args[1..], hasMode)
    else if args[0] == MODE then
      if HasValue(args) then [MODE, args[1]] + PermissionPass(args[2..], true) else PermissionPass(args[1..], hasMode)
    else [args[0]] + PermissionPass(args[1..], hasMode || StartsWith(args[0], MODE_IS))
  }

  function SourcesPass(args: Args, hasSources: bool): Args
    decreases |args|
  {
    if args == [] then if hasSources then [] else [SOURCES, USER]
    else if args[0] == SOURCES then
      if HasValue(args) then [SOURCES, USER] + SourcesPass(args[2..], true) else SourcesPass(args[1..], hasSources)
    else if StartsWith(args[0], SOURCES_IS) then [SOURCES_IS_USER] + SourcesPass(args[1..], true)
    else [args[0]] + SourcesPass(args[1..], hasSources)
  }

  function Normalize(args: Args): Args {
    PermissionPass(SourcesPass(args, false), false)
  }

  lemma PermissionStep(args: Args, i: nat, has: bool)
    requires i < |args|
    ensures PermissionPass(args[i..], has) ==
      if args[i] == SKIP then PermissionPass(args[i + 1..], has)
      else if args[i] == MODE then
        if i + 1 < |args| && IsValue(args[i + 1]) then [MODE, args[i + 1]] + PermissionPass(args[i + 2..], true)
        else PermissionPass(args[i + 1..], has)
      else [args[i]] + PermissionPass(args[i + 1..], has || StartsWith(args[i], MODE_IS))
  {
    assert args[i..][1..] == args[i + 1..];
    assert i + 1 < |args| ==> args[i..][2..] == args[i + 2..];
  }

  lemma SourcesStep(args: Args, i: nat, has: bool)
    requires i < |args|
    ensures SourcesPass(args[i..], has) ==
      if args[i] == SOURCES then
        if i + 1 < |args| && IsValue(args[i + 1]) then [SOURCES, USER] + SourcesPass(args[i + 2..], true)
        else SourcesPass(args[i + 1..], has)
      else if StartsWith(args[i], SOURCES_IS) then [SOURCES_IS_USER] + SourcesPass(args[i + 1..], true)
      else [args[i]] + SourcesPass(args[i + 1..], has)
  {
    assert args[i..][1..] == args[i + 1..];
    assert i + 1 < |args| ==> args[i..][2..] == args[i + 2..];
  }

  lemma PermissionEnd(has: bool)
    ensures PermissionPass([], has) == if has then [] else [MODE, BYPASS]
  {
  }

  lemma SourcesEnd(has: bool)
    ensures SourcesPass([], has) == if has then [] else [SOURCES, USER]
  {
  }

  lemma Regroup(a: Args, b: Args, c: Args)
    ensures a + (b + c) == (a + b) + c
  {
  }

  method NormalizePermissionArgs(args: Args) returns (normalized: Args)
    ensures normalized == PermissionPass(args, false)
  {
    hide StartsWith, IsValue, PermissionPass;
    normalized := [];
    var hasPermissionMode := false;
    assert args[0..] == args;
    var i := 0;
    while i < |args|
      invariant 0 <= i <= |args|
      invariant normalized + PermissionPass(args[i..], hasPermissionMode) == PermissionPass(args, false)
    {
      var arg := args[i];
      PermissionStep(args, i, hasPermissionMode);
      if arg == SKIP {
        i := i + 1;
        continue;
      }
      if arg == MODE {
        if i + 1 < |args| && IsValue(args[i + 1]) {
          Regroup(normalized, [MODE, args[i + 1]], PermissionPass(args[i + 2..], true));
          hasPermissionMode := true;
          normalized := normalized + [arg, args[i + 1]];
          i := i + 1;
        }
        i := i + 1;
        continue;
      }
      Regroup(normalized, [arg], PermissionPass(args[i + 1..], hasPermissionMode || StartsWith(arg, MODE_IS)));
      if StartsWith(arg, MODE_IS) {
        hasPermissionMode := true;
      }
      normalized := normalized + [arg];
      i := i + 1;
    }
    assert args[|args|..] == [];
    PermissionEnd(hasPermissionMode);
    if !hasPermissionMode {
      normalized := normalized + [MODE, BYPASS];
    }
  }

  method NormalizeSettingSourcesArgs(args: Args) returns (normalized: Args)
    ensures normalized == SourcesPass(args, false)
  {
    hide StartsWith, IsValue, SourcesPass;
    normalized := [];
    var hasSettingSources := false;
    assert args[0..] == args;
    var i := 0;
    while i < |args|
      invariant 0 <= i <= |args|
      invariant normalized + SourcesPass(args[i..], hasSettingSources) == SourcesPass(args, false)
    {
      var arg := args[i];
      SourcesStep(args, i, hasSettingSources);
      if arg == SOURCES {
        if i + 1 < |args| && IsValue(args[i + 1]) {
          Regroup(normalized, [SOURCES, USER], SourcesPass(args[i + 2..], true));
          hasSettingSources := true;
          normalized := normalized + [arg, USER];
          i := i + 1;
        }
        i := i + 1;
        continue;
      }
      if StartsWith(arg, SOURCES_IS) {
        Regroup(normalized, [SOURCES_IS_USER], SourcesPass(args[i + 1..], true));
        hasSettingSources := true;
        normalized := normalized + [SOURCES_IS_USER];
        i := i + 1;
        continue;
      }
      Regroup(normalized, [arg], SourcesPass(args[i + 1..], hasSettingSources));
      normalized := normalized + [arg];
      i := i + 1;
    }
    assert args[|args|..] == [];
    SourcesEnd(hasSettingSources);
    if !hasSettingSources {
      normalized := normalized + [SOURCES, USER];
    }
  }

  method NormalizeBackendArgs(args: Args) returns (normalized: Args)
    ensures normalized == Normalize(args)
  {
    var withSources := NormalizeSettingSourcesArgs(args);
    normalized := NormalizePermissionArgs(withSources);
  }

  // ----- what the arguments say

  /** The arguments that name neither a permission mode nor setting sources. */
  function Unrelated(args: Args): Args
    decreases |args|
  {
    if args == [] then []
    else if args[0] == SKIP then Unrelated(args[1..])
    else if args[0] == MODE || args[0] == SOURCES then
      if HasValue(args) then Unrelated(args[2..]) else Unrelated(args[1..])
    else if StartsWith(args[0], MODE_IS) || StartsWith(args[0], SOURCES_IS) then Unrelated(args[1..])
    else [args[0]] + Unrelated(args[1..])
  }

  /** The permission modes asked for, in order, in either spelling. */
  function Modes(args: Args): seq<Args>
    decreases |args|
  {
    if args == [] then []
    else if args[0] == MODE then
      if HasValue(args) then [[MODE, args[1]]] + Modes(args[2..]) else Modes(args[1..])
    else if StartsWith(args[0], MODE_IS) then [[args[0]]] + Modes(args[1..])
    else Modes(args[1..])
  }

  /** Setting sources appear only as the user's, and do appear if `needed`. */
  predicate SourcesClean(args: Args, needed: bool)
    decreases |args|
  {
    if args == [] then !needed
    else if args[0] == SOURCES then |args| > 1 && args[1] == USER && SourcesClean(args[2..], false)
    else if StartsWith(args[0], SOURCES_IS) then args[0] == SOURCES_IS_USER && SourcesClean(args[1..], false)
    else SourcesClean(args[1..], needed)
  }

  /** There is no legacy flag, each mode flag has its value, and some mode appears if `needed`. */
  predicate ModesClean(args: Args, needed: bool)
    decreases |args|
  {
    if args == [] then !needed
    else if args[0] == SKIP then false
    else if args[0] == MODE then HasValue(args) && ModesClean(args[2..], false)
    else ModesClean(args[1..], needed && !StartsWith(args[0], MODE_IS))
  }

  lemma Words()
    ensures !StartsWith(SKIP, MODE_IS) && !StartsWith(SKIP, SOURCES_IS) && !StartsWith(MODE, MODE_IS) && !StartsWith(MODE, SOURCES_IS)
    ensures !StartsWith(SOURCES, MODE_IS) && !StartsWith(SOURCES, SOURCES_IS)
    ensures StartsWith(SOURCES_IS_USER, SOURCES_IS) && !StartsWith(SOURCES_IS_USER, MODE_IS)
    ensures SKIP != MODE && SKIP != SOURCES && MODE != SOURCES && SOURCES_IS_USER != SKIP && SOURCES_IS_USER != MODE && SOURCES_IS_USER != SOURCES
    ensures StartsWith(SKIP, "-") && StartsWith(MODE, "-") && StartsWith(SOURCES, "-") && StartsWith(SOURCES_IS_USER, "-")
    ensures IsValue(USER) && IsValue(BYPASS)
  {
    assert SKIP[2] == 'd' && MODE[2] == 'p' && SOURCES[2] == 's';
    assert |SKIP| == 30 && |MODE| == 17 && |SOURCES| == 17 && |MODE_IS| == 18 && |SOURCES_IS| == 18;
    assert MODE_IS[2] == 'p' && SOURCES_IS[2] == 's' && SOURCES_IS_USER[2] == 's';
    assert SKIP[..18][2] == 'd' && SOURCES_IS_USER[..18][2] == 's';
    assert SOURCES_IS_USER[..18] == SOURCES_IS;
    assert SKIP[..1] == "-" && MODE[..1] == "-" && SOURCES[..1] == "-" && SOURCES_IS_USER[..1] == "-";
    assert USER[0] == 'u' && BYPASS[0] == 'b' && !IsSpace(USER[0]) && !IsSpace(BYPASS[0]);
    assert USER[..1][0] == 'u' && BYPASS[..1][0] == 'b' && "-"[0] == '-';
  }

  // ----- the sources pass

  predicate NoValueFirst(args: Args) {
    args == [] || !IsValue(args[0])
  }

  /** Dropping a flag that has no value never puts a value behind the flag before it. */
  lemma {:induction false} SourcesPassGluesNothing(args: Args, has: bool)
    requires NoValueFirst(args)
    ensures NoValueFirst(SourcesPass(args, has))
    decreases |args|
  {
    Words();
    hide StartsWith, IsBlank;
    if args != [] && args[0] == SOURCES && !HasValue(args) {
      SourcesPassGluesNothing(args[1..], has);
    }
  }

  lemma {:induction false} SourcesPassCleans(args: Args, has: bool)
    ensures SourcesClean(SourcesPass(args, has), !has)
    decreases |args|
  {
    Words();
    hide StartsWith, IsBlank;
    if args == [] {
      assert [SOURCES, USER][2..] == [];
    } else if args[0] == SOURCES && HasValue(args) {
      SourcesPassCleans(args[2..], true);
      var r := SourcesPass(args[2..], true);
      assert ([SOURCES, USER] + r)[2..] == r;
    } else if args[0] == SOURCES {
      SourcesPassCleans(args[1..], has);
    } else {
      SourcesPassCleans(args[1..], has || StartsWith(args[0], SOURCES_IS));
    }
  }

  lemma {:induction false} SourcesCleanWeaker(args: Args, needed: bool)
    requires SourcesClean(args, needed)
    ensures SourcesClean(args, false)
    decreases |args|
  {
    hide StartsWith;
    if args != [] && args[0] != SOURCES && !StartsWith(args[0], SOURCES_IS) {
      SourcesCleanWeaker(args[1..], needed);
    }
  }

  lemma {:induction false} SourcesPassKeepsClean(args: Args, has: bool)
    requires SourcesClean(args, !has)
    ensures SourcesPass(args, has) == args
    decreases |args|
  {
    Words();
    hide StartsWith, IsBlank;
    if args != [] {
      if args[0] == SOURCES {
        SourcesPassKeepsClean(args[2..], true);
        assert args == [SOURCES, USER] + args[2..];
      } else if StartsWith(args[0], SOURCES_IS) {
        SourcesPassKeepsClean(args[1..], true);
      } else {
        SourcesPassKeepsClean(args[1..], has);
      }
    }
  }

  predicate SameSense(a: Args, b: Args) {
    Unrelated(a) == Unrelated(b) && Modes(a) == Modes(b)
  }

  lemma OtherHead(x: string, y: string, a: Args, b: Args)
    requires SameSense(a, b) && x != MODE && x != SOURCES
    requires x == y || (StartsWith(x, SOURCES_IS) && y == SOURCES_IS_USER)
    ensures SameSense([x] + a, [y] + b)
  {
    Words();
    assert ([x] + a)[1..] == a && ([y] + b)[1..] == b;
    if StartsWith(x, SOURCES_IS) {
      SourcesIsNoMode(x);
    }
    hide StartsWith;
  }

  lemma SourcesIsNoMode(x: string)
    requires StartsWith(x, SOURCES_IS)
    ensures !StartsWith(x, MODE_IS) && x != SKIP
  {
    assert |MODE_IS| == |SOURCES_IS| == 18 && SOURCES_IS[2] == 's';
    assert x[2] == x[..18][2] == 's';
    assert SKIP[2] == 'd' && MODE_IS[2] == 'p';
  }

  lemma DanglingMode(a: Args, b: Args)
    requires SameSense(a, b) && NoValueFirst(a) && NoValueFirst(b)
    ensures SameSense([MODE] + a, [MODE] + b)
  {
    Words();
    hide StartsWith, IsBlank;
    assert ([MODE] + a)[1..] == a && ([MODE] + b)[1..] == b;
  }

  lemma ModeWithValue(v: string, a: Args, b: Args)
    requires SameSense(a, b) && IsValue(v)
    ensures SameSense([MODE, v] + a, [MODE, v] + b)
  {
    Words();
    hide StartsWith, IsBlank;
    assert ([MODE, v] + a)[2..] == a && ([MODE, v] + b)[2..] == b;
  }

  lemma SourcesWithValue(v: string, w: string, a: Args, b: Args)
    requires SameSense(a, b) && IsValue(v) && IsValue(w)
    ensures SameSense([SOURCES, v] + a, [SOURCES, w] + b)
  {
    Words();
    PlainValue(v);
    PlainValue(w);
    hide StartsWith, IsBlank;
    var x, y := [SOURCES, v] + a, [SOURCES, w] + b;
    assert x[2..] == a && y[2..] == b;
    assert x[1..] == [v] + a && y[1..] == [w] + b && ([v] + a)[1..] == a && ([w] + b)[1..] == b;
    assert Modes(x) == Modes(x[1..]) == Modes(a) && Modes(y) == Modes(y[1..]) == Modes(b);
  }

  lemma DanglingSources(a: Args)
    requires NoValueFirst(a)
    ensures SameSense([SOURCES] + a, a)
  {
    Words();
    hide StartsWith, IsBlank;
    assert ([SOURCES] + a)[1..] == a;
  }

  lemma {:induction false} SourcesPassKeepsOthers(args: Args, has: bool)
    ensures SameSense(args, SourcesPass(args, has))
    decreases |args|
  {
    Words();
    hide StartsWith, IsBlank, Unrelated, Modes;
    if args == [] {
      NothingButSources();
    } else if HasValue(args) && args[0] == SOURCES {
      SourcesPassKeepsOthers(args[2..], true);
      SourcesWithValue(args[1], USER, args[2..], SourcesPass(args[2..], true));
      assert args == [SOURCES, args[1]] + args[2..];
    } else if HasValue(args) && args[0] == MODE {
      PlainValue(args[1]);
      SourcesPassKeepsOthers(args[2..], has);
      var r := SourcesPass(args[2..], has);
      ModeWithValue(args[1], args[2..], r);
      assert args == [MODE, args[1]] + args[2..] && args[1..][1..] == args[2..];
      assert SourcesPass(args, has) == [MODE] + ([args[1]] + r) == [MODE, args[1]] + r;
    } else {
      assert args == [args[0]] + args[1..];
      if args[0] == MODE {
        SourcesPassKeepsOthers(args[1..], has);
        SourcesPassGluesNothing(args[1..], has);
        DanglingMode(args[1..], SourcesPass(args[1..], has));
      } else if args[0] == SOURCES {
        SourcesPassKeepsOthers(args[1..], has);
        DanglingSources(args[1..]);
      } else {
        var has' := has || StartsWith(args[0], SOURCES_IS);
        SourcesPassKeepsOthers(args[1..], has');
        OtherHead(args[0], if StartsWith(args[0], SOURCES_IS) then SOURCES_IS_USER else args[0],
                  args[1..], SourcesPass(args[1..], has'));
      }
    }
  }

  lemma NothingButSources()
    ensures SameSense([], []) && SameSense([], [SOURCES, USER])
  {
    Words();
    PlainValue(USER);
    hide StartsWith, IsBlank;
    var x := [SOURCES, USER];
    assert x[2..] == [] && x[1..] == [USER] && [USER][1..] == [];
    assert Modes(x) == Modes(x[1..]) == Modes([]);
  }

  lemma FlagStarts(v: string, flag: string)
    requires StartsWith(v, flag) && StartsWith(flag, "-")
    ensures StartsWith(v, "-")
  {
    assert v[..1] == flag[..1];
  }

  /** A value is none of the flags. */
  lemma PlainValue(v: string)
    requires IsValue(v)
    ensures v != SKIP && v != MODE && v != SOURCES && !StartsWith(v, MODE_IS) && !StartsWith(v, SOURCES_IS)
  {
    Words();
    assert StartsWith(MODE_IS, "-") && StartsWith(SOURCES_IS, "-") by {
      assert MODE_IS[..1] == "-" && SOURCES_IS[..1] == "-";
    }
    hide StartsWith, IsBlank;
    if StartsWith(v, MODE_IS) {
      FlagStarts(v, MODE_IS);
    }
    if StartsWith(v, SOURCES_IS) {
      FlagStarts(v, SOURCES_IS);
    }
  }

  // ----- the permission pass

  lemma {:induction false} PermissionPassCleans(args: Args, has: bool)
    ensures ModesClean(PermissionPass(args, has), !has)
    decreases |args|
  {
    Words();
    hide StartsWith, IsBlank;
    if args == [] {
      assert [MODE, BYPASS][2..] == [];
    } else if args[0] == SKIP {
      PermissionPassCleans(args[1..], has);
    } else if args[0] == MODE && HasValue(args) {
      var r := PermissionPass(args[2..], true);
      PermissionPassCleans(args[2..], true);
      assert ([MODE, args[1]] + r)[2..] == r;
    } else if args[0] == MODE {
      PermissionPassCleans(args[1..], has);
    } else {
      PermissionPassCleans(args[1..], has || StartsWith(args[0], MODE_IS));
    }
  }

  lemma {:induction false} PermissionPassKeepsClean(args: Args, has: bool)
    requires ModesClean(args, !has)
    ensures PermissionPass(args, has) == args
    decreases |args|
  {
    hide StartsWith, IsBlank;
    if args != [] {
      if args[0] == MODE {
        PermissionPassKeepsClean(args[2..], true);
        assert args == [MODE, args[1]] + args[2..];
      } else {
        PermissionPassKeepsClean(args[1..], has || StartsWith(args[0], MODE_IS));
      }
    }
  }

  lemma PassOverSources(args: Args, has: bool)
    requires |args| > 1 && args[0] == SOURCES && args[1] == USER
    ensures PermissionPass(args, has) == [SOURCES, USER] + PermissionPass(args[2..], has)
  {
    Words();
    PlainValue(USER);
    hide StartsWith, IsBlank;
    var r := PermissionPass(args[2..], has);
    assert args[1..][1..] == args[2..];
    assert PermissionPass(args[1..], has) == [USER] + r;
    Regroup([SOURCES], [USER], r);
  }

  lemma CleanPair(a: Args, needed: bool)
    ensures SourcesClean([SOURCES, USER] + a, needed) <==> SourcesClean(a, false)
  {
    assert ([SOURCES, USER] + a)[2..] == a;
  }

  lemma CleanMode(v: string, a: Args, needed: bool)
    requires IsValue(v)
    ensures SourcesClean([MODE, v] + a, needed) <==> SourcesClean(a, needed)
  {
    Words();
    PlainValue(v);
    hide StartsWith, IsBlank;
    var x := [MODE, v] + a;
    assert x[1..] == [v] + a && ([v] + a)[1..] == a;
    assert SourcesClean(x, needed) == SourcesClean(x[1..], needed) == SourcesClean(a, needed);
  }

  /** The permission pass leaves clean setting sources clean. */
  lemma {:induction false} PermissionPassKeepsSources(args: Args, has: bool, needed: bool)
    requires SourcesClean(args, needed)
    ensures SourcesClean(PermissionPass(args, has), needed)
    decreases |args|
  {
    Words();
    hide StartsWith, IsBlank;
    if args == [] {
      CleanMode(BYPASS, [], needed);
      assert [MODE, BYPASS] + [] == [MODE, BYPASS];
    } else if args[0] == SOURCES {
      PassOverSources(args, has);
      PermissionPassKeepsSources(args[2..], has, false);
      CleanPair(PermissionPass(args[2..], has), needed);
    } else if args[0] == MODE && HasValue(args) {
      assert args == [MODE, args[1]] + args[2..];
      CleanMode(args[1], args[2..], needed);
      PermissionPassKeepsSources(args[2..], true, needed);
      CleanMode(args[1], PermissionPass(args[2..], true), needed);
    } else {
      var needed' := needed && !StartsWith(args[0], SOURCES_IS);
      var has' := has || (args[0] != SKIP && args[0] != MODE && StartsWith(args[0], MODE_IS));
      PermissionPassKeepsSources(args[1..], has', needed');
    }
  }

  lemma {:induction false} PermissionPassKeepsOthers(args: Args, has: bool, needed: bool)
    requires SourcesClean(args, needed)
    ensures Unrelated(PermissionPass(args, has)) == Unrelated(args)
    ensures Modes(PermissionPass(args, has)) == Modes(args) + if has || Modes(args) != [] then [] else [[MODE, BYPASS]]
    decreases |args|
  {
    Words();
    hide StartsWith, IsBlank;
    if args == [] {
      assert [MODE, BYPASS][2..] == [];
    } else if args[0] == SOURCES {
      assert args == [SOURCES, USER] + args[2..];
      PassOverSources(args, has);
      PermissionPassKeepsOthers(args[2..], has, false);
      SkipSources(args[2..]);
      SkipSources(PermissionPass(args[2..], has));
    } else if args[0] == MODE && HasValue(args) {
      var r := PermissionPass(args[2..], true);
      assert args == [MODE, args[1]] + args[2..];
      CleanMode(args[1], args[2..], needed);
      PermissionPassKeepsOthers(args[2..], true, needed);
      assert ([MODE, args[1]] + r)[2..] == r;
    } else {
      var needed' := needed && !StartsWith(args[0], SOURCES_IS);
      var has' := has || (args[0] != SKIP && args[0] != MODE && StartsWith(args[0], MODE_IS));
      PermissionPassKeepsOthers(args[1..], has', needed');
    }
  }

  lemma SkipSources(a: Args)
    ensures Unrelated([SOURCES, USER] + a) == Unrelated(a) && Modes([SOURCES, USER] + a) == Modes(a)
  {
    Words();
    PlainValue(USER);
    hide StartsWith, IsBlank;
    var x := [SOURCES, USER] + a;
    assert x[2..] == a && x[1..] == [USER] + a && ([USER] + a)[1..] == a;
    assert Modes(x) == Modes(x[1..]) == Modes(a);
  }

  // ----- the composed normalisation

  /** Whatever the arguments: the result has no legacy flag, names a permission mode and names setting sources
      only as the user's; the modes asked for and all unrelated arguments are kept, in order. */
  lemma NormalizeEstablishes(args: Args)
    ensures ModesClean(Normalize(args), true) && SourcesClean(Normalize(args), true)
    ensures Unrelated(Normalize(args)) == Unrelated(args)
    ensures Modes(Normalize(args)) == if Modes(args) == [] then [[MODE, BYPASS]] else Modes(args)
  {
    var s := SourcesPass(args, false);
    SourcesPassCleans(args, false);
    SourcesPassKeepsOthers(args, false);
    PermissionPassCleans(s, false);
    PermissionPassKeepsSources(s, false, true);
    PermissionPassKeepsOthers(s, false, true);
  }

  /** Normalising again changes nothing; the fixed points are exactly the clean argument lists. */
  lemma NormalizeIdempotent(args: Args)
    ensures Normalize(Normalize(args)) == Normalize(args)
    ensures Normalize(args) == args <==> ModesClean(args, true) && SourcesClean(args, true)
  {
    NormalizeEstablishes(args);
    SourcesPassKeepsClean(Normalize(args), false);
    PermissionPassKeepsClean(Normalize(args), false);
    if ModesClean(args, true) && SourcesClean(args, true) {
      SourcesPassKeepsClean(args, false);
      PermissionPassKeepsClean(args, false);
    }
  }

  // ----- clean lists, read by position

  lemma {:induction false} CleanByPosition(args: Args, sources: bool, modes: bool, i: nat)
    requires SourcesClean(args, sources) && ModesClean(args, modes) && i < |args|
    ensures args[i] != SKIP
    ensures args[i] == SOURCES ==> i + 1 < |args| && args[i + 1] == USER
    ensures StartsWith(args[i], SOURCES_IS) ==> args[i] == SOURCES_IS_USER
    ensures args[i] == MODE ==> i + 1 < |args| && IsValue(args[i + 1])
    decreases |args|
  {
    Words();
    hide StartsWith, IsBlank;
    if args[0] == SOURCES {
      PlainValue(USER);
      assert args[1..][1..] == args[2..];
      if i >= 2 {
        CleanByPosition(args[2..], false, modes, i - 2);
      }
    } else if args[0] == MODE {
      PlainValue(args[1]);
      assert args[1..][1..] == args[2..];
      if i >= 2 {
        CleanByPosition(args[2..], sources, false, i - 2);
      }
    } else if i >= 1 {
      CleanByPosition(args[1..], sources && !StartsWith(args[0], SOURCES_IS), modes && !StartsWith(args[0], MODE_IS), i - 1);
    }
  }

  // ----- what becomes of each argument among arguments of no concern

  /** None of the flags, in either spelling. */
  predicate Plain(arg: string) {
    arg !in [SKIP, MODE, SOURCES] && !StartsWith(arg, MODE_IS) && !StartsWith(arg, SOURCES_IS)
  }

  predicate AllPlain(args: Args) {
    forall i :: 0 <= i < |args| ==> Plain(args[i])
  }

  /** A value holds something and does not look like a flag. */
  predicate LooksLikeValue(v: string) {
    (exists i :: 0 <= i < |v| && !IsSpace(v[i])) && v[0] != '-'
  }

  lemma ValueLooks(v: string)
    ensures IsValue(v) <==> LooksLikeValue(v)
    ensures LooksLikeValue(v) ==> Plain(v)
  {
    if v != "" {
      assert v[..1] == [v[0]];
      if IsValue(v) {
        PlainValue(v);
      }
    }
  }

  lemma {:induction false} PlainFirst(a: Args, b: Args, has: bool)
    requires AllPlain(a)
    ensures SourcesPass(a + b, has) == a + SourcesPass(b, has)
    ensures PermissionPass(a + b, has) == a + PermissionPass(b, has)
    decreases |a|
  {
    hide StartsWith;
    if a == [] {
      assert a + b == b;
    } else {
      var rest := a[1..];
      PlainFirst(rest, b, has);
      assert (a + b)[1..] == rest + b && (a + b)[0] == a[0] && Plain(a[0]);
      assert SourcesPass(a + b, has) == [a[0]] + SourcesPass(rest + b, has);
      assert PermissionPass(a + b, has) == [a[0]] + PermissionPass(rest + b, has);
      hide SourcesPass, PermissionPass, Plain;
      assert a == [a[0]] + rest;
      Joined([a[0]], rest, SourcesPass(b, has));
      Joined([a[0]], rest, PermissionPass(b, has));
    }
  }

  lemma PlainOnly(a: Args, has: bool)
    requires AllPlain(a)
    ensures SourcesPass(a, has) == a + if has then [] else [SOURCES, USER]
    ensures PermissionPass(a, has) == a + if has then [] else [MODE, BYPASS]
  {
    PlainFirst(a, [], has);
    assert a + [] == a;
  }

  /** The sources flag the passes add, as it goes through the permission pass. */
  lemma AddedSources(a: Args, has: bool)
    requires AllPlain(a)
    ensures PermissionPass(a + [SOURCES, USER], has) == a + [SOURCES, USER] + if has then [] else [MODE, BYPASS]
  {
    PlainFirst(a, [SOURCES, USER], has);
    PermissionEnd(has);
    PassOverSources([SOURCES, USER], has);
    assert [SOURCES, USER][2..] == [];
    hide PermissionPass;
    Joined(a, [SOURCES, USER], PermissionPass([], has));
  }

  /** Without any of the flags both are added at the end; the legacy flag is dropped where it is. */
  lemma NothingGiven(a: Args, b: Args)
    requires AllPlain(a) && AllPlain(b)
    ensures Normalize(a) == a + [SOURCES, USER] + [MODE, BYPASS]
    ensures Normalize(a + [SKIP] + b) == a + b + [SOURCES, USER] + [MODE, BYPASS]
  {
    hide SourcesPass, PermissionPass, Plain;
    PlainOnly(a, false);
    AddedSources(a, false);
    SkipGiven(b);
    PlainFirst(a, [SKIP] + b, false);
    Joined(a, [SKIP], b);
    PlainFirst(a, [SKIP] + (b + [SOURCES, USER]), false);
    AddedSources(b, false);
    JoinedEnds(a, b, [SOURCES, USER], [MODE, BYPASS]);
  }

  lemma SkipGiven(b: Args)
    requires AllPlain(b)
    ensures SourcesPass([SKIP] + b, false) == [SKIP] + (b + [SOURCES, USER])
    ensures PermissionPass([SKIP] + (b + [SOURCES, USER]), false) == PermissionPass(b + [SOURCES, USER], false)
  {
    Words();
    PlainOnly(b, false);
    assert ([SKIP] + b)[1..] == b && ([SKIP] + (b + [SOURCES, USER]))[1..] == b + [SOURCES, USER];
  }

  /** A permission mode with a value is kept where it is, whatever the value; without one the flag is dropped, and
      the default is added at the end. */
  lemma ModeGiven(a: Args, v: string, b: Args)
    requires AllPlain(a) && Plain(v) && AllPlain(b)
    ensures Normalize(a + [MODE, v] + b) ==
      if LooksLikeValue(v) then a + [MODE, v] + b + [SOURCES, USER]
      else a + [v] + b + [SOURCES, USER] + [MODE, BYPASS]
  {
    hide SourcesPass, PermissionPass, Plain, LooksLikeValue;
    var tail := [v] + b;
    assert AllPlain(tail);
    ValueLooks(v);
    ModeSources(v, b);
    var passed := [MODE] + (tail + [SOURCES, USER]);
    PlainFirst(a, [MODE] + tail, false);
    PlainFirst(a, passed, false);
    assert a + [MODE, v] + b == a + ([MODE] + tail);
    assert Normalize(a + [MODE, v] + b) == a + PermissionPass(passed, false);
    ModePermission(v, b);
    hide Normalize;
    if LooksLikeValue(v) {
      AddedSources(b, true);
      Joined(a, [MODE, v], b + [SOURCES, USER]);
      Joined(a + [MODE, v], b, [SOURCES, USER]);
    } else {
      AddedSources(tail, false);
      JoinedEnds(a, tail, [SOURCES, USER], [MODE, BYPASS]);
      Joined(a, [v], b);
    }
  }

  lemma Joined(a: Args, b: Args, c: Args)
    ensures a + (b + c) == a + b + c
  {
  }

  lemma JoinedEnds(a: Args, b: Args, c: Args, d: Args)
    ensures a + (b + c + d) == a + b + c + d
  {
    assert a + (b + c + d) == a + (b + c) + d;
    assert a + (b + c) == a + b + c;
  }

  lemma ModeSources(v: string, b: Args)
    requires Plain(v) && AllPlain(b)
    ensures SourcesPass([MODE] + ([v] + b), false) == [MODE] + (([v] + b) + [SOURCES, USER])
  {
    Words();
    assert AllPlain([v] + b);
    PlainOnly([v] + b, false);
    assert ([MODE] + ([v] + b))[1..] == [v] + b;
  }

  lemma ModePermission(v: string, b: Args)
    requires Plain(v) && AllPlain(b)
    ensures PermissionPass([MODE] + (([v] + b) + [SOURCES, USER]), false) ==
      if IsValue(v) then [MODE, v] + PermissionPass(b + [SOURCES, USER], true)
      else PermissionPass([v] + b + [SOURCES, USER], false)
  {
    hide IsValue;
    var passed := [MODE] + (([v] + b) + [SOURCES, USER]);
    assert passed[1] == v && passed[1..] == [v] + b + [SOURCES, USER] && passed[2..] == b + [SOURCES, USER];
    Words();
  }

  /** Setting sources with a value become the user's where they are; without one the flag is dropped, and the user's
      are added at the end. */
  lemma SourcesGiven(a: Args, v: string, b: Args)
    requires AllPlain(a) && Plain(v) && AllPlain(b)
    ensures Normalize(a + [SOURCES, v] + b) ==
      if LooksLikeValue(v) then a + [SOURCES, USER] + b + [MODE, BYPASS]
      else a + [v] + b + [SOURCES, USER] + [MODE, BYPASS]
  {
    hide SourcesPass, PermissionPass, Plain, LooksLikeValue;
    var tail := [v] + b;
    assert AllPlain(tail);
    ValueLooks(v);
    PlainFirst(a, [SOURCES] + tail, false);
    SourcesSources(v, b);
    assert a + [SOURCES, v] + b == a + ([SOURCES] + tail);
    if LooksLikeValue(v) {
      PlainOnly(b, true);
      assert b + [] == b;
      assert SourcesPass(a + [SOURCES, v] + b, false) == a + ([SOURCES, USER] + b);
      PlainFirst(a, [SOURCES, USER] + b, false);
      SourcesPermission(b);
      Joined(a, [SOURCES, USER], b + [MODE, BYPASS]);
      Joined(a + [SOURCES, USER], b, [MODE, BYPASS]);
    } else {
      PlainOnly(tail, false);
      assert SourcesPass(a + [SOURCES, v] + b, false) == a + (tail + [SOURCES, USER]);
      PlainFirst(a, tail + [SOURCES, USER], false);
      AddedSources(tail, false);
      JoinedEnds(a, tail, [SOURCES, USER], [MODE, BYPASS]);
      Joined(a, [v], b);
    }
  }

  lemma SourcesSources(v: string, b: Args)
    requires AllPlain(b)
    ensures SourcesPass([SOURCES] + ([v] + b), false) ==
      if IsValue(v) then [SOURCES, USER] + SourcesPass(b, true) else SourcesPass([v] + b, false)
  {
    hide IsValue;
    var args := [SOURCES] + ([v] + b);
    assert args[1] == v && args[1..] == [v] + b && args[2..] == b;
  }

  lemma SourcesPermission(b: Args)
    requires AllPlain(b)
    ensures PermissionPass([SOURCES, USER] + b, false) == [SOURCES, USER] + (b + [MODE, BYPASS])
  {
    PlainOnly(b, false);
    PassOverSources([SOURCES, USER] + b, false);
    hide PermissionPass;
    assert ([SOURCES, USER] + b)[2..] == b;
  }

  /** In the spelling with an equals sign a mode is kept as it is, and sources become the user's, where they are. */
  lemma SpelledTogether(a: Args, x: string, b: Args)
    requires AllPlain(a) && AllPlain(b)
    ensures Normalize(a + [MODE_IS + x] + b) == a + [MODE_IS + x] + b + [SOURCES, USER]
    ensures Normalize(a + [SOURCES_IS + x] + b) == a + [SOURCES_IS_USER] + b + [MODE, BYPASS]
  {
    ModeTogether(x, b);
    SourcesTogether(x, b);
    hide SourcesPass, PermissionPass, Plain;
    var mode, sources := MODE_IS + x, SOURCES_IS + x;
    Joined(a, [mode], b);
    PlainFirst(a, [mode] + b, false);
    PlainFirst(a, [mode] + (b + [SOURCES, USER]), false);
    Joined(a, [mode], b + [SOURCES, USER]);
    Joined(a + [mode], b, [SOURCES, USER]);
    Joined(a, [sources], b);
    PlainFirst(a, [sources] + b, false);
    PlainFirst(a, [SOURCES_IS_USER] + b, false);
    Joined(a, [SOURCES_IS_USER], b + [MODE, BYPASS]);
    Joined(a + [SOURCES_IS_USER], b, [MODE, BYPASS]);
  }

  lemma TogetherIsNoFlag(x: string)
    ensures MODE_IS + x !in [SKIP, MODE, SOURCES] && StartsWith(MODE_IS + x, MODE_IS) && !StartsWith(MODE_IS + x, SOURCES_IS)
    ensures SOURCES_IS + x !in [SKIP, MODE, SOURCES] && StartsWith(SOURCES_IS + x, SOURCES_IS) && !StartsWith(SOURCES_IS + x, MODE_IS)
  {
    assert SKIP[2] == 'd' && MODE[2] == 'p' && SOURCES[2] == 's' && MODE_IS[2] == 'p' && SOURCES_IS[2] == 's';
    assert |SKIP| == 30 && |MODE| == 17 && |SOURCES| == 17 && |MODE_IS| == 18 && |SOURCES_IS| == 18;
    var m, s := MODE_IS + x, SOURCES_IS + x;
    assert m[..18] == MODE_IS && s[..18] == SOURCES_IS;
    assert m[2] == m[..18][2] && s[2] == s[..18][2];
  }

  lemma ModeTogether(x: string, b: Args)
    requires AllPlain(b)
    ensures SourcesPass([MODE_IS + x] + b, false) == [MODE_IS + x] + (b + [SOURCES, USER])
    ensures PermissionPass([MODE_IS + x] + (b + [SOURCES, USER]), false) == [MODE_IS + x] + (b + [SOURCES, USER])
  {
    TogetherIsNoFlag(x);
    PlainOnly(b, false);
    AddedSources(b, true);
    assert ([MODE_IS + x] + b)[1..] == b && ([MODE_IS + x] + (b + [SOURCES, USER]))[1..] == b + [SOURCES, USER];
    assert b + [SOURCES, USER] + [] == b + [SOURCES, USER];
    hide StartsWith, Plain;
  }

  lemma SourcesTogether(x: string, b: Args)
    requires AllPlain(b)
    ensures SourcesPass([SOURCES_IS + x] + b, false) == [SOURCES_IS_USER] + b
    ensures PermissionPass([SOURCES_IS_USER] + b, false) == [SOURCES_IS_USER] + (b + [MODE, BYPASS])
  {
    TogetherIsNoFlag(x);
    Words();
    PlainOnly(b, true);
    PlainOnly(b, false);
    assert ([SOURCES_IS + x] + b)[1..] == b && ([SOURCES_IS_USER] + b)[1..] == b;
    assert b + [] == b;
    hide StartsWith, Plain;
  }
}
