/**
 Which of a caller's extra arguments reach an agent's command line, as
 `src/agents.rs` decides it.
 */
module AgentArgs {
  import opened Basics

  datatype AgentKind = Codex | Claude | Grok | OpenCode

  function ManagedFlags(kind: AgentKind): seq<string> {
    match kind
    case Codex => ["--dangerously-bypass-approvals-and-sandbox"]
    case Claude => ["-p", "--no-session-persistence", "--session-id", "--verbose"]
    case Grok => ["--always-approve", "--verbatim"]
    case OpenCode => ["--standalone", "--auto"]
  }

  /** The value options that extra arguments may not set again. */
  function ManagedValueFlags(kind: AgentKind, hasModel: bool): seq<string> {
    match kind
    case Codex => ["-C", "--cd", "-s", "--sandbox"] + if hasModel then ["-m", "--model"] else []
    case Grok => ["--cwd"] + if hasModel then ["-m", "--model"] else []
    case Claude | OpenCode => []
  }

  predicate StartsWith(s: string, prefix: string) {
    |prefix| <= |s| && s[..|prefix|] == prefix
  }

  /** `arg` is `flag` with its value attached: behind an equals sign, or directly when the flag is short. */
  predicate IsInlineValueForm(arg: string, flag: string) {
    && StartsWith(arg, flag)
    && var rest := arg[|flag|..];
       StartsWith(rest, "=") || (!StartsWith(flag, "--") && rest != "")
  }

  /** A managed value option in either spelling. */
  predicate IsManagedOption(flags: seq<string>, arg: string) {
    arg in flags || exists k | 0 <= k < |flags| :: IsInlineValueForm(arg, flags[k])
  }

  /** Argument `i` is the value of the managed option before it. */
  ghost predicate IsValue(flags: seq<string>, extra: seq<string>, i: nat)
    requires i < |extra|
  {
    i > 0 && extra[i-1] in flags && !IsValue(flags, extra, i - 1)
  }

  /** The extras that a mask keeps, in order. */
  ghost function Picked(extra: seq<string>, mask: seq<bool>): seq<string>
    requires |mask| == |extra|
  {
    if extra == [] then []
    else
      var n := |extra| - 1;
      Picked(extra[..n], mask[..n]) + if mask[n] then [extra[n]] else []
  }

  /** A managed flag that the command line already has by the time argument `i` is reached. */
  ghost predicate IsRepeat(args: seq<string>, managed: seq<string>, extra: seq<string>, mask: seq<bool>, i: nat)
    requires i < |extra| && i <= |mask|
  {
    && extra[i] in managed
    && (extra[i] in args || exists j :: 0 <= j < i && mask[j] && extra[j] == extra[i])
  }

  /** Why argument `i` is dropped; anything else is kept. */
  ghost predicate IsDropped(args: seq<string>, managed: seq<string>, flags: seq<string>, extra: seq<string>,
                            mask: seq<bool>, i: nat)
    requires i < |extra| && i <= |mask|
  {
    IsManagedOption(flags, extra[i]) || IsValue(flags, extra, i) || IsRepeat(args, managed, extra, mask, i)
  }

  ghost predicate Selects(args: seq<string>, managed: seq<string>, flags: seq<string>, extra: seq<string>, mask: seq<bool>) {
    && |mask| <= |extra|
    && forall i | 0 <= i < |mask| :: mask[i] <==> !IsDropped(args, managed, flags, extra, mask, i)
  }

  lemma PickedNext(extra: seq<string>, mask: seq<bool>, keep: bool)
    requires |mask| < |extra|
    ensures Picked(extra[..|mask|+1], mask + [keep]) ==
            Picked(extra[..|mask|], mask) + if keep then [extra[|mask|]] else []
  {
    assert extra[..|mask|+1][..|mask|] == extra[..|mask|];
    assert (mask + [keep])[..|mask|] == mask;
  }

  lemma SelectsNext(args: seq<string>, managed: seq<string>, flags: seq<string>, extra: seq<string>,
                    mask: seq<bool>, keep: bool)
    requires Selects(args, managed, flags, extra, mask) && |mask| < |extra|
    requires keep <==> !IsDropped(args, managed, flags, extra, mask, |mask|)
    ensures Selects(args, managed, flags, extra, mask + [keep])
  {
    var next := mask + [keep];
    forall i | 0 <= i < |next| ensures next[i] <==> !IsDropped(args, managed, flags, extra, next, i) {
      assert IsDropped(args, managed, flags, extra, next, i) <==> IsDropped(args, managed, flags, extra, mask, i);
    }
  }

  /** A flag is already on the command line exactly when it was there first or an earlier extra put it there. */
  lemma {:induction false} PickedHolds(extra: seq<string>, mask: seq<bool>, arg: string)
    requires |mask| == |extra|
    ensures arg in Picked(extra, mask) <==> exists j :: 0 <= j < |extra| && mask[j] && extra[j] == arg
  {
    if extra != [] {
      var n := |extra| - 1;
      PickedHolds(extra[..n], mask[..n], arg);
      if j :| 0 <= j < n && mask[j] && extra[j] == arg {
        assert mask[..n][j] && extra[..n][j] == arg;
      }
    }
  }

  /** Append the extra arguments that the managed command line leaves room for. */
  method AppendExtraArgs(args: seq<string>, kind: AgentKind, hasModel: bool, extra: seq<string>)
    returns (result: seq<string>)
    ensures exists mask ::
              && |mask| == |extra| && Selects(args, ManagedFlags(kind), ManagedValueFlags(kind, hasModel), extra, mask)
              && result == args + Picked(extra, mask)
  {
    var managed, flags := ManagedFlags(kind), ManagedValueFlags(kind, hasModel);
    hide Selects, Picked, IsManagedOption, ManagedFlags, ManagedValueFlags;
    result := args;
    ghost var mask := [];
    Nothing(args, managed, flags, extra);
    var i := 0;
    while i < |extra|
      invariant 0 <= i <= |extra| && |mask| == i
      invariant i < |extra| ==> !IsValue(flags, extra, i)
      invariant Selects(args, managed, flags, extra, mask)
      invariant result == args + Picked(extra[..i], mask)
    {
      var arg := extra[i];
      PickedHolds(extra[..i], mask, arg);
      assert forall j | 0 <= j < i :: extra[..i][j] == extra[j];
      var option := arg in flags;
      assert IsManagedOption(flags, arg) <==> option || exists k | 0 <= k < |flags| :: IsInlineValueForm(arg, flags[k]) by {
        OptionForms(flags, arg);
      }
      var dropped := option || (exists k | 0 <= k < |flags| :: IsInlineValueForm(arg, flags[k])) || (arg in managed && arg in result);
      SelectsNext(args, managed, flags, extra, mask, !dropped);
      PickedNext(extra, mask, !dropped);
      mask := mask + [!dropped];
      if !dropped {
        result := result + [arg];
      }
      i := i + 1;
      if option && i < |extra| {
        SelectsNext(args, managed, flags, extra, mask, false);
        PickedNext(extra, mask, false);
        mask := mask + [false];
        i := i + 1;
      }
    }
    assert extra[..|extra|] == extra;
  }

  lemma OptionForms(flags: seq<string>, arg: string)
    ensures IsManagedOption(flags, arg) <==> arg in flags || exists k | 0 <= k < |flags| :: IsInlineValueForm(arg, flags[k])
  {
  }

  lemma Nothing(args: seq<string>, managed: seq<string>, flags: seq<string>, extra: seq<string>)
    ensures Selects(args, managed, flags, extra, []) && Picked(extra[..0], []) == []
  {
  }

  // ----- what the selection guarantees -----

  /** The rules leave one selection, so they fix the command line. */
  lemma {:induction false} SelectionIsUnique(args: seq<string>, managed: seq<string>, flags: seq<string>,
                                             extra: seq<string>, a: seq<bool>, b: seq<bool>)
    requires Selects(args, managed, flags, extra, a) && Selects(args, managed, flags, extra, b) && |a| == |b|
    ensures a == b
  {
    if a != [] {
      var n := |a| - 1;
      SelectsInit(args, managed, flags, extra, a);
      SelectsInit(args, managed, flags, extra, b);
      SelectionIsUnique(args, managed, flags, extra, a[..n], b[..n]);
      assert forall j | 0 <= j < n :: a[..n][j] == a[j] && b[..n][j] == b[j];
      assert IsDropped(args, managed, flags, extra, a, n) <==> IsDropped(args, managed, flags, extra, b, n);
      assert a == a[..n] + [a[n]] && b == b[..n] + [b[n]];
    }
  }

  lemma SelectsInit(args: seq<string>, managed: seq<string>, flags: seq<string>, extra: seq<string>, mask: seq<bool>)
    requires Selects(args, managed, flags, extra, mask) && mask != []
    ensures Selects(args, managed, flags, extra, mask[..|mask|-1])
  {
    var init := mask[..|mask|-1];
    forall i | 0 <= i < |init| ensures init[i] <==> !IsDropped(args, managed, flags, extra, init, i) {
      assert IsDropped(args, managed, flags, extra, init, i) <==> IsDropped(args, managed, flags, extra, mask, i);
    }
  }

  /** No managed value option reaches the command line, in either spelling. */
  lemma {:induction false} NoManagedOptionAdded(args: seq<string>, managed: seq<string>, flags: seq<string>,
                                                extra: seq<string>, mask: seq<bool>, k: nat)
    requires |mask| == |extra| && Selects(args, managed, flags, extra, mask)
    requires k < |Picked(extra, mask)|
    ensures !IsManagedOption(flags, Picked(extra, mask)[k])
  {
    var arg := Picked(extra, mask)[k];
    PickedHolds(extra, mask, arg);
    var j :| 0 <= j < |extra| && mask[j] && extra[j] == arg;
    assert !IsDropped(args, managed, flags, extra, mask, j);
  }

  /** A managed flag is kept only while the command line does not have it. */
  lemma KeptFlagIsNew(args: seq<string>, managed: seq<string>, flags: seq<string>, extra: seq<string>, mask: seq<bool>, n: nat)
    requires |mask| == |extra| && Selects(args, managed, flags, extra, mask)
    requires n < |extra| && mask[n] && extra[n] in managed
    ensures extra[n] !in args && extra[n] !in Picked(extra[..n], mask[..n])
  {
    hide Picked, IsManagedOption, IsValue;
    assert !IsDropped(args, managed, flags, extra, mask, n);
    PickedHolds(extra[..n], mask[..n], extra[n]);
    assert forall j | 0 <= j < n :: mask[..n][j] == mask[j] && extra[..n][j] == extra[j];
  }

  lemma CountAppend(s: seq<string>, x: string, flag: string)
    ensures multiset(s + [x])[flag] == multiset(s)[flag] + if x == flag then 1 else 0
  {
  }

  /** What the first `n` extras added, for the flag `flag`. */
  lemma {:induction false} FlagCount(args: seq<string>, managed: seq<string>, flags: seq<string>,
                                     extra: seq<string>, mask: seq<bool>, flag: string, n: nat)
    requires |mask| == |extra| && Selects(args, managed, flags, extra, mask)
    requires flag in managed && n <= |extra|
    ensures multiset(Picked(extra[..n], mask[..n]))[flag] <= if flag in args then 0 else 1
  {
    hide Selects, Picked;
    if n == 0 {
      Nothing(args, managed, flags, extra);
      assert mask[..0] == [];
    } else {
      var m := n - 1;
      FlagCount(args, managed, flags, extra, mask, flag, m);
      assert mask[..m] + [mask[m]] == mask[..n];
      PickedNext(extra, mask[..m], mask[m]);
      CountAppend(Picked(extra[..m], mask[..m]), extra[m], flag);
      if mask[m] && extra[m] == flag {
        KeptFlagIsNew(args, managed, flags, extra, mask, m);
      }
    }
  }

  /** A managed flag that occurred at most once still does; one that was there is not added again. */
  lemma ManagedFlagsStayUnique(args: seq<string>, managed: seq<string>, flags: seq<string>,
                               extra: seq<string>, mask: seq<bool>, flag: string)
    requires |mask| == |extra| && Selects(args, managed, flags, extra, mask) && flag in managed
    ensures var result := args + Picked(extra, mask);
            if flag in args then multiset(result)[flag] == multiset(args)[flag] else multiset(result)[flag] <= 1
  {
    FlagCount(args, managed, flags, extra, mask, flag, |extra|);
    assert extra[..|extra|] == extra && mask[..|extra|] == mask;
    assert flag in args <==> flag in multiset(args);
  }

  // ----- OpenCode's own check -----

  predicate Contains(s: string, c: char) {
    c in s
  }

  /** The option name, without an inline value. */
  function FlagOf(arg: string): string {
    if '=' !in arg then arg else if arg[0] == '=' then "" else [arg[0]] + FlagOf(arg[1..])
  }

  predicate IsForbidden(arg: string) {
    var flag := FlagOf(arg);
    || flag in ["--agent", "--cwd", "--dir", "--directory", "--server", "--continue", "--session", "--fork", "--model",
                "-c", "-s", "-m"]
    || (|arg| > 2 && !StartsWith(arg, "--") && arg[1] in ['c', 's', 'm'])
    || (flag in ["--standalone", "--auto"] && Contains(arg, '='))
  }

  /** A value may follow argument `i`: it is an option, and it carries no value itself. */
  ghost predicate TakesValue(extra: seq<string>, i: nat)
    requires i < |extra|
    decreases i, 1
  {
    !IsOptionValue(extra, i) && !Contains(extra[i], '=')
  }

  /** Argument `i` is read as the value of the option before it. */
  ghost predicate IsOptionValue(extra: seq<string>, i: nat)
    requires i < |extra|
    decreases i, 0
  {
    !StartsWith(extra[i], "-") && i > 0 && TakesValue(extra, i - 1)
  }

  ghost predicate IsAllowed(extra: seq<string>, i: nat)
    requires i < |extra|
  {
    IsOptionValue(extra, i) || (StartsWith(extra[i], "-") && extra[i] != "--" && !IsForbidden(extra[i]))
  }

  /** The index of the first argument OpenCode may not be given. */
  method ValidateOpenCode(extra: seq<string>) returns (bad: Option<nat>)
    ensures bad.None? ==> forall i | 0 <= i < |extra| :: IsAllowed(extra, i)
    ensures bad.None? ==> forall i | 0 <= i < |extra| && StartsWith(extra[i], "-") :: extra[i] != "--" && !IsForbidden(extra[i])
    ensures bad.Some? ==> bad.value < |extra| && !IsAllowed(extra, bad.value)
                          && forall i | 0 <= i < bad.value :: IsAllowed(extra, i)
  {
    hide IsForbidden;
    var pendingValue := false;
    for i := 0 to |extra|
      invariant forall j | 0 <= j < i :: IsAllowed(extra, j)
      invariant forall j | 0 <= j < i && StartsWith(extra[j], "-") :: extra[j] != "--" && !IsForbidden(extra[j])
      invariant pendingValue <==> i > 0 && TakesValue(extra, i - 1)
    {
      var arg := extra[i];
      if pendingValue && !StartsWith(arg, "-") {
        pendingValue := false;
      } else {
        if arg == "--" || IsForbidden(arg) || !StartsWith(arg, "-") {
          return Some(i);
        }
        pendingValue := !Contains(arg, '=');
      }
    }
    bad := None;
  }

  // ----- the options by name -----

  /** `arg` is the option `name`, alone or with `=` and a value. */
  ghost predicate Names(arg: string, name: string) {
    arg == name || exists value: string :: arg == name + "=" + value
  }

  /** `arg` is the short option `name`, alone or with anything right behind it. */
  ghost predicate NamesShort(arg: string, name: string) {
    exists rest: string :: arg == name + rest
  }

  lemma PrefixByParts(s: string, prefix: string)
    ensures StartsWith(s, prefix) <==> exists rest: string :: s == prefix + rest
  {
    if StartsWith(s, prefix) {
      assert s == prefix + s[|prefix|..];
    }
  }

  lemma InlineLong(arg: string, flag: string)
    requires |flag| > 2 && flag[..2] == "--"
    ensures arg == flag || IsInlineValueForm(arg, flag) <==> Names(arg, flag)
  {
    if IsInlineValueForm(arg, flag) {
      assert arg == flag + "=" + arg[|flag|+1..];
    }
    if value: string :| arg == flag + "=" + value {
      assert arg[..|flag|] == flag && arg[|flag|..] == "=" + value;
    }
  }

  lemma InlineShort(arg: string, flag: string)
    requires |flag| == 2 && flag[1] != '-'
    ensures arg == flag || IsInlineValueForm(arg, flag) <==> NamesShort(arg, flag)
  {
    if IsInlineValueForm(arg, flag) || arg == flag {
      assert arg == flag + arg[|flag|..];
    }
    if rest: string :| arg == flag + rest {
      assert arg[..|flag|] == flag && arg[|flag|..] == rest;
    }
  }

  /** The model option, in either spelling. */
  ghost predicate NamesModel(arg: string) {
    NamesShort(arg, "-m") || Names(arg, "--model")
  }

  /** Which extras count as managed value options, agent by agent. */
  lemma ManagedOptionsByName(kind: AgentKind, hasModel: bool, arg: string)
    ensures IsManagedOption(ManagedValueFlags(kind, hasModel), arg) <==>
            match kind
            case Codex =>
              || NamesShort(arg, "-C") || Names(arg, "--cd") || NamesShort(arg, "-s") || Names(arg, "--sandbox")
              || (hasModel && NamesModel(arg))
            case Grok => Names(arg, "--cwd") || (hasModel && NamesModel(arg))
            case Claude | OpenCode => false
  {
    hide IsInlineValueForm, Names, NamesShort;
    var flags := ManagedValueFlags(kind, hasModel);
    assert IsManagedOption(flags, arg) <==>
           exists k :: 0 <= k < |flags| && (arg == flags[k] || IsInlineValueForm(arg, flags[k])) by {
      ManagedByPlace(flags, arg);
    }
    InlineLong(arg, "--cd");
    InlineLong(arg, "--sandbox");
    InlineLong(arg, "--model");
    InlineLong(arg, "--cwd");
    InlineShort(arg, "-C");
    InlineShort(arg, "-s");
    InlineShort(arg, "-m");
    match kind {
      case Codex =>
        assert flags[0] == "-C" && flags[1] == "--cd" && flags[2] == "-s" && flags[3] == "--sandbox";
        assert hasModel ==> flags[4] == "-m" && flags[5] == "--model";
      case Grok =>
        assert flags[0] == "--cwd";
        assert hasModel ==> flags[1] == "-m" && flags[2] == "--model";
      case _ =>
    }
  }

  lemma ManagedByPlace(flags: seq<string>, arg: string)
    ensures IsManagedOption(flags, arg) <==>
            exists k :: 0 <= k < |flags| && (arg == flags[k] || IsInlineValueForm(arg, flags[k]))
  {
    hide IsInlineValueForm;
  }

  /** Which flags an agent's command line has at most once, agent by agent. */
  lemma ManagedFlagsByName(kind: AgentKind, arg: string)
    ensures arg in ManagedFlags(kind) <==>
            match kind
            case Codex => arg == "--dangerously-bypass-approvals-and-sandbox"
            case Claude => arg == "-p" || arg == "--no-session-persistence" || arg == "--session-id" || arg == "--verbose"
            case Grok => arg == "--always-approve" || arg == "--verbatim"
            case OpenCode => arg == "--standalone" || arg == "--auto"
  {
  }

  /** The option name is what stands before the first `=`. */
  lemma {:induction false} FlagParts(arg: string)
    ensures '=' !in FlagOf(arg) && FlagOf(arg) <= arg
    ensures FlagOf(arg) == arg <==> '=' !in arg
    ensures FlagOf(arg) != arg ==> arg[|FlagOf(arg)|] == '='
  {
    if '=' in arg && arg[0] != '=' {
      assert arg == [arg[0]] + arg[1..];
      FlagParts(arg[1..]);
    }
  }

  lemma EqualsIsLater(name: string, arg: string, k: nat)
    requires name <= arg && '=' !in name && k < |arg| && arg[k] == '='
    ensures |name| <= k
  {
  }

  lemma FlagByName(arg: string, name: string)
    requires '=' !in name
    ensures FlagOf(arg) == name <==> Names(arg, name)
  {
    FlagParts(arg);
    var flag := FlagOf(arg);
    if flag == name && flag != arg {
      assert arg == name + "=" + arg[|name|+1..];
    }
    if value: string :| arg == name + "=" + value {
      assert arg[|name|] == '=' && name <= arg;
      EqualsIsLater(flag, arg, |name|);
      EqualsIsLater(name, arg, |flag|);
    }
  }

  ghost predicate NamesAny(arg: string, names: seq<string>) {
    exists k :: 0 <= k < |names| && Names(arg, names[k])
  }

  /** Which arguments OpenCode may not be given, by name. */
  lemma ForbiddenByName(arg: string)
    ensures IsForbidden(arg) <==>
            || NamesAny(arg, ["--agent", "--cwd", "--dir", "--directory", "--server", "--continue", "--session", "--fork",
                              "--model", "-c", "-s", "-m"])
            || (|arg| > 2 && arg[..2] != "--" && (arg[1] == 'c' || arg[1] == 's' || arg[1] == 'm'))
            || (arg != "--standalone" && Names(arg, "--standalone"))
            || (arg != "--auto" && Names(arg, "--auto"))
  {
    hide Names;
    var names := ["--agent", "--cwd", "--dir", "--directory", "--server", "--continue", "--session", "--fork", "--model",
                  "-c", "-s", "-m"];
    forall k | 0 <= k < |names| ensures FlagOf(arg) == names[k] <==> Names(arg, names[k]) {
      FlagByName(arg, names[k]);
    }
    assert FlagOf(arg) in names <==> NamesAny(arg, names);
    FlagByName(arg, "--standalone");
    FlagByName(arg, "--auto");
    FlagParts(arg);
  }
}
