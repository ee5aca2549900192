/** The command lines the host prints for plugin processes and the parser on the plugin's side. */
module PluginArgv {
  import opened Collections

  // ---------- text helpers ----------

  /** The parts of `s` between occurrences of `sep`. */
  function Split(s: string, sep: char): (r: seq<string>)
    ensures |r| > 0
  {
    if s == "" then [""]
    else
      var rest := Split(s[1..], sep);
      if s[0] == sep then [""] + rest else [[s[0]] + rest[0]] + rest[1..]
  }

  function NonEmpty(parts: seq<string>): (r: seq<string>) {
    if parts == [] then []
    else (if parts[0] == "" then [] else [parts[0]]) + NonEmpty(parts[1..])
  }

  /** The non-empty parts of a comma-separated list. */
  function SplitIds(csv: string): (r: seq<string>) {
    NonEmpty(Split(csv, ','))
  }

  function JoinIds(ids: seq<string>): (r: string) {
    if ids == [] then "" else if |ids| == 1 then ids[0] else ids[0] + "," + JoinIds(ids[1..])
  }

  /** Split at the first `sep`, if there is one. */
  function SplitOnce(s: string, sep: char): (r: Option<(string, string)>)
    ensures r.Some? ==> s == r.value.0 + [sep] + r.value.1 && sep !in r.value.0
    ensures r.None? <==> sep !in s
  {
    if s == "" then None
    else if s[0] == sep then
      assert s == [sep] + s[1..];
      Some(("", s[1..]))
    else
      assert s == [s[0]] + s[1..];
      match SplitOnce(s[1..], sep)
      case None => None
      case Some((k, v)) => Some(([s[0]] + k, v))
  }

  /** An id that survives the comma-separated list. */
  predicate PlainId(id: string) {
    id != "" && ',' !in id
  }

  lemma {:induction false} SplitAppend(a: string, b: string, sep: char)
    requires sep !in a
    ensures Split(a + [sep] + b, sep) == [a] + Split(b, sep)
  {
    var whole := a + [sep] + b;
    if a == "" {
      assert whole[1..] == b;
    } else {
      assert whole[0] == a[0] && whole[1..] == a[1..] + [sep] + b;
      assert a == [a[0]] + a[1..];
      assert forall c :: c in a[1..] ==> c in a;
      SplitAppend(a[1..], b, sep);
    }
  }

  lemma {:induction false} SplitPlain(a: string, sep: char)
    requires sep !in a
    ensures Split(a, sep) == [a]
  {
    if a != "" {
      assert a == [a[0]] + a[1..];
      assert forall c :: c in a[1..] ==> c in a;
      SplitPlain(a[1..], sep);
    }
  }

  lemma {:induction false} SplitHasNoSeparator(s: string, sep: char)
    ensures forall p :: p in Split(s, sep) ==> sep !in p
  {
    if s != "" {
      SplitHasNoSeparator(s[1..], sep);
      var rest := Split(s[1..], sep);
      assert rest[0] in rest;
      assert forall p :: p in rest[1..] ==> p in rest;
    }
  }

  lemma {:induction false} NonEmptyParts(parts: seq<string>)
    ensures forall p :: p in NonEmpty(parts) ==> p in parts && p != ""
  {
    if parts != [] {
      NonEmptyParts(parts[1..]);
      assert forall p :: p in parts[1..] ==> p in parts;
    }
  }

  /** Whatever the text, the listed ids are plain. */
  lemma SplitIdsArePlain(csv: string)
    ensures forall id :: id in SplitIds(csv) ==> PlainId(id)
  {
    SplitHasNoSeparator(csv, ',');
    NonEmptyParts(Split(csv, ','));
  }

  lemma NoIds()
    ensures SplitIds("") == []
  {
    SplitPlain("", ',');
  }

  lemma {:induction false} SplitJoinedIds(ids: seq<string>)
    requires forall id :: id in ids ==> PlainId(id)
    ensures SplitIds(JoinIds(ids)) == ids
  {
    if ids != [] {
      assert ids[0] in ids;
      assert forall id :: id in ids[1..] ==> id in ids;
      if |ids| == 1 {
        SplitPlain(ids[0], ',');
        assert ids == [ids[0]];
        assert NonEmpty([ids[0]]) == [ids[0]] + NonEmpty([ids[0]][1..]);
        assert [ids[0]][1..] == [];
      } else {
        SplitAppend(ids[0], JoinIds(ids[1..]), ',');
        SplitJoinedIds(ids[1..]);
        var parts := Split(JoinIds(ids[1..]), ',');
        assert ([ids[0]] + parts)[1..] == parts;
      }
    }
  }

  // ---------- the host's side ----------

  datatype ActionArgs = ActionArgs(
    endpoint: string, selected: seq<string>, active: Option<string>, params: seq<(string, string)>)

  datatype HookArgs = HookArgs(endpoint: string, item: Option<string>, category: Option<string>)

  function Optional(flag: string, value: Option<string>): (r: seq<string>) {
    match value case None => [] case Some(v) => [flag, v]
  }

  function ParamArgs(params: seq<(string, string)>): (r: seq<string>) {
    if params == [] then []
    else ParamArgs(params[..|params| - 1]) + ["--param", params[|params| - 1].0 + "=" + params[|params| - 1].1]
  }

  function ActionArgv(action: string, args: ActionArgs): (r: seq<string>) {
    ["run", action, "--endpoint", args.endpoint] + SelectedArgs(args.selected) + Optional("--active", args.active)
    + ParamArgs(args.params)
  }

  function SelectedArgs(selected: seq<string>): (r: seq<string>) {
    if selected == [] then [] else ["--selected", JoinIds(selected)]
  }

  function HookArgv(event: string, args: HookArgs): (r: seq<string>) {
    ["hook", event, "--endpoint", args.endpoint] + Optional("--item", args.item) + Optional("--category", args.category)
  }

  function CronArgv(job: string, endpoint: string): (r: seq<string>) {
    ["cron", job, "--endpoint", endpoint]
  }

  /** Print an action invocation. */
  method BuildArgv(action: string, args: ActionArgs) returns (out: seq<string>)
    ensures out == ActionArgv(action, args)
  {
    out := ["run", action];
    out := out + ["--endpoint"];
    out := out + [args.endpoint];
    ghost var head := out;
    assert head == ["run", action, "--endpoint", args.endpoint];
    if args.selected != [] {
      out := out + ["--selected"];
      out := out + [JoinIds(args.selected)];
    }
    assert out == head + SelectedArgs(args.selected);
    head := out;
    if args.active.Some? {
      out := out + ["--active"];
      out := out + [args.active.value];
    }
    assert out == head + Optional("--active", args.active);
    hide ParamArgs, JoinIds, SelectedArgs, Optional;
    head := out;
    assert head + ParamArgs(args.params) == ActionArgv(action, args);
    ParamArgsStep(args.params, 0);
    for i := 0 to |args.params|
      invariant out == head + ParamArgs(args.params[..i])
    {
      ParamArgsStep(args.params, i);
      var (key, value) := args.params[i];
      out := out + ["--param"];
      out := out + [key + "=" + value];
    }
    assert args.params[..|args.params|] == args.params;
  }

  lemma ParamArgsStep(params: seq<(string, string)>, i: nat)
    requires i <= |params|
    ensures i == 0 ==> ParamArgs(params[..i]) == []
    ensures i < |params| ==>
              ParamArgs(params[..i + 1]) == ParamArgs(params[..i]) + ["--param", params[i].0 + "=" + params[i].1]
  {
    if i < |params| { assert params[..i + 1][..i] == params[..i]; }
  }

  method BuildHookArgv(event: string, args: HookArgs) returns (out: seq<string>)
    ensures out == HookArgv(event, args)
  {
    out := ["hook", event];
    out := out + ["--endpoint"];
    out := out + [args.endpoint];
    if args.item.Some? {
      out := out + ["--item"];
      out := out + [args.item.value];
    }
    if args.category.Some? {
      out := out + ["--category"];
      out := out + [args.category.value];
    }
  }

  /** A printed action, argument by argument. */
  lemma {:induction false} PrintedAction(action: string, args: ActionArgs)
    ensures
      var argv := ActionArgv(action, args);
      var s := if args.selected == [] then 4 else 6;
      var p := if args.active.Some? then s + 2 else s;
      && |argv| == p + 2 * |args.params|
      && argv[0] == "run" && argv[1] == action && argv[2] == "--endpoint" && argv[3] == args.endpoint
      && (args.selected != [] ==> argv[4] == "--selected" && argv[5] == JoinIds(args.selected))
      && (args.active.Some? ==> argv[s] == "--active" && argv[s + 1] == args.active.value)
      && forall k :: 0 <= k < |args.params| ==>
           argv[p + 2 * k] == "--param" && argv[p + 2 * k + 1] == args.params[k].0 + "=" + args.params[k].1
  {
    ParamArgsLength(args.params);
    forall k | 0 <= k < |args.params|
      ensures ParamArgs(args.params)[2 * k] == "--param"
      ensures ParamArgs(args.params)[2 * k + 1] == args.params[k].0 + "=" + args.params[k].1
    {
      ParamArgsAt(args.params, k);
    }
  }

  lemma PrintedHook(event: string, args: HookArgs)
    ensures
      var argv := HookArgv(event, args);
      var c := if args.item.Some? then 6 else 4;
      && |argv| == (if args.category.Some? then c + 2 else c)
      && argv[0] == "hook" && argv[1] == event && argv[2] == "--endpoint" && argv[3] == args.endpoint
      && (args.item.Some? ==> argv[4] == "--item" && argv[5] == args.item.value)
      && (args.category.Some? ==> argv[c] == "--category" && argv[c + 1] == args.category.value)
  {
  }

  /** A joined list is the ids in order with a comma between each two. */
  lemma {:induction false} JoinedIds(ids: seq<string>, id: string)
    ensures JoinIds([]) == "" && JoinIds([id]) == id
    ensures ids != [] ==> JoinIds(ids + [id]) == JoinIds(ids) + "," + id
  {
    if |ids| == 1 {
      assert (ids + [id])[1..] == [id];
    } else if |ids| > 1 {
      JoinedIds(ids[1..], id);
      assert (ids + [id])[1..] == ids[1..] + [id];
    }
  }

  // ---------- the plugin's side ----------

  datatype Invocation =
    | Run(action: string, endpoint: string, selected: seq<string>, active: Option<string>, params: map<string, string>)
    | Hook(event: string, endpoint: string, item: Option<string>, category: Option<string>)
    | Cron(job: string, endpoint: string)
    | Manifest

  datatype RunFlags = RunFlags(
    endpoint: string, selected: seq<string>, active: Option<string>, params: map<string, string>)

  /** The next argument, if there is one. */
  function At(argv: seq<string>, i: nat): (r: Option<string>) {
    if i < |argv| then Some(argv[i]) else None
  }

  function OrEmpty(value: Option<string>): (r: string) {
    match value case None => "" case Some(v) => v
  }

  function InsertParam(params: map<string, string>, kv: Option<string>): (r: map<string, string>) {
    match kv
    case None => params
    case Some(text) =>
      match SplitOnce(text, '=')
      case None => params
      case Some((k, v)) => params[k := v]
  }

  predicate RunFlag(flag: string) {
    flag == "--endpoint" || flag == "--selected" || flag == "--active" || flag == "--param"
  }

  /** The effect of one flag with the argument after it. */
  function ApplyFlag(flags: RunFlags, flag: string, value: Option<string>): (r: RunFlags) {
    if flag == "--endpoint" then flags.(endpoint := OrEmpty(value))
    else if flag == "--selected" then flags.(selected := SplitIds(OrEmpty(value)))
    else if flag == "--active" then flags.(active := value)
    else if flag == "--param" then flags.(params := InsertParam(flags.params, value))
    else flags
  }

  /** Reading flags from position `i` on; a known flag takes the next argument, an unknown one is skipped. */
  function ReadRun(argv: seq<string>, i: nat, flags: RunFlags): (r: RunFlags)
    decreases |argv| - i
  {
    if i >= |argv| then flags
    else if RunFlag(argv[i]) then ReadRun(argv, i + 2, ApplyFlag(flags, argv[i], At(argv, i + 1)))
    else ReadRun(argv, i + 1, flags)
  }

  function ReadHook(argv: seq<string>, i: nat, args: HookArgs): (r: HookArgs)
    decreases |argv| - i
  {
    if i >= |argv| then args
    else if argv[i] == "--endpoint" then ReadHook(argv, i + 2, args.(endpoint := OrEmpty(At(argv, i + 1))))
    else if argv[i] == "--item" then ReadHook(argv, i + 2, args.(item := At(argv, i + 1)))
    else if argv[i] == "--category" then ReadHook(argv, i + 2, args.(category := At(argv, i + 1)))
    else ReadHook(argv, i + 1, args)
  }

  function ReadCron(argv: seq<string>, i: nat, endpoint: string): (r: string)
    decreases |argv| - i
  {
    if i >= |argv| then endpoint
    else if argv[i] == "--endpoint" then ReadCron(argv, i + 2, OrEmpty(At(argv, i + 1)))
    else ReadCron(argv, i + 1, endpoint)
  }

  function Parsed(argv: seq<string>): (r: Option<Invocation>) {
    if argv == [] then None
    else if argv[0] == "manifest" then Some(Manifest)
    else if |argv| == 1 then None
    else if argv[0] == "hook" then
      var args := ReadHook(argv, 2, HookArgs("", None, None));
      if args.endpoint == "" then None else Some(Hook(argv[1], args.endpoint, args.item, args.category))
    else if argv[0] == "cron" then
      var endpoint := ReadCron(argv, 2, "");
      if endpoint == "" then None else Some(Cron(argv[1], endpoint))
    else if argv[0] == "run" then
      var flags := ReadRun(argv, 2, RunFlags("", [], None, map[]));
      if flags.endpoint == "" then None
      else Some(Run(argv[1], flags.endpoint, flags.selected, flags.active, flags.params))
    else None
  }

  /** Parse an argument vector, consuming it from the front. */
  method ParseArgs(argv: seq<string>) returns (r: Option<Invocation>)
    ensures r == Parsed(argv)
  {
    if |argv| == 0 {
      return None;
    }
    if argv[0] == "manifest" {
      return Some(Manifest);
    }
    if argv[0] == "hook" {
      if |argv| == 1 { return None; }
      var i, endpoint, item, category := 2, "", None, None;
      while i < |argv|
        invariant ReadHook(argv, i, HookArgs(endpoint, item, category)) == ReadHook(argv, 2, HookArgs("", None, None))
        decreases |argv| - i
      {
        var flag := argv[i];
        i := i + 1;
        if flag == "--endpoint" {
          endpoint, i := OrEmpty(At(argv, i)), i + 1;
        } else if flag == "--item" {
          item, i := At(argv, i), i + 1;
        } else if flag == "--category" {
          category, i := At(argv, i), i + 1;
        }
      }
      return if endpoint == "" then None else Some(Hook(argv[1], endpoint, item, category));
    }
    if argv[0] == "cron" {
      if |argv| == 1 { return None; }
      var i, endpoint := 2, "";
      while i < |argv|
        invariant ReadCron(argv, i, endpoint) == ReadCron(argv, 2, "")
        decreases |argv| - i
      {
        var flag := argv[i];
        i := i + 1;
        if flag == "--endpoint" {
          endpoint, i := OrEmpty(At(argv, i)), i + 1;
        }
      }
      return if endpoint == "" then None else Some(Cron(argv[1], endpoint));
    }
    if argv[0] != "run" || |argv| == 1 {
      return None;
    }
    var i, endpoint, selected, active, params := 2, "", [], None, map[];
    while i < |argv|
      invariant ReadRun(argv, i, RunFlags(endpoint, selected, active, params))
                == ReadRun(argv, 2, RunFlags("", [], None, map[]))
      decreases |argv| - i
    {
      var flag := argv[i];
      i := i + 1;
      if flag == "--endpoint" {
        endpoint, i := OrEmpty(At(argv, i)), i + 1;
      } else if flag == "--selected" {
        selected, i := SplitIds(OrEmpty(At(argv, i))), i + 1;
      } else if flag == "--active" {
        active, i := At(argv, i), i + 1;
      } else if flag == "--param" {
        params, i := InsertParam(params, At(argv, i)), i + 1;
      }
    }
    r := if endpoint == "" then None else Some(Run(argv[1], endpoint, selected, active, params));
  }

  // ---------- the reference: what an argument vector says ----------

  /** A flag and the argument after it, if there is one. */
  datatype Arg = Arg(flag: string, value: Option<string>)

  /** The flags from position `i` on; a flag that is not known is skipped alone. */
  function ArgsFrom(argv: seq<string>, i: nat, known: set<string>): (r: seq<Arg>)
    decreases |argv| - i
  {
    if i >= |argv| then []
    else if argv[i] in known then [Arg(argv[i], At(argv, i + 1))] + ArgsFrom(argv, i + 2, known)
    else ArgsFrom(argv, i + 1, known)
  }

  /** The value that the last occurrence of a flag gives, or `unset`. */
  function Value(args: seq<Arg>, flag: string, unset: Option<string>): (r: Option<string>) {
    if args == [] then unset
    else Value(args[1..], flag, if args[0].flag == flag then args[0].value else unset)
  }

  lemma {:induction false} ValueIsLast(args: seq<Arg>, flag: string, unset: Option<string>, j: nat)
    ensures (forall i :: 0 <= i < |args| ==> args[i].flag != flag) ==> Value(args, flag, unset) == unset
    ensures j < |args| && args[j].flag == flag && (forall i :: j < i < |args| ==> args[i].flag != flag) ==>
              Value(args, flag, unset) == args[j].value
  {
    if args != [] {
      ValueIsLast(args[1..], flag, if args[0].flag == flag then args[0].value else unset, if j > 0 then j - 1 else 0);
    }
  }

  /** What an argument sets the parameter `k` to: its text is the name, the first equals sign, and the value. */
  function ParamText(arg: Arg, k: string): (r: Option<string>) {
    if arg.flag == "--param" && arg.value.Some? && k + "=" <= arg.value.value && '=' !in k
    then Some(arg.value.value[|k| + 1..]) else None
  }

  /** The value that the last argument for parameter `k` gives, or `unset`. */
  function ParamValue(args: seq<Arg>, k: string, unset: Option<string>): (r: Option<string>) {
    if args == [] then unset
    else ParamValue(args[1..], k, if ParamText(args[0], k).Some? then ParamText(args[0], k) else unset)
  }

  lemma {:induction false} ParamValueIsLast(args: seq<Arg>, k: string, unset: Option<string>, j: nat, v: string)
    ensures (forall i :: 0 <= i < |args| ==> ParamText(args[i], k).None?) ==> ParamValue(args, k, unset) == unset
    ensures j < |args| && args[j] == Arg("--param", Some(k + "=" + v)) && '=' !in k
            && (forall i :: j < i < |args| ==> ParamText(args[i], k).None?) ==>
              ParamValue(args, k, unset) == Some(v)
  {
    if args != [] {
      assert (k + "=" + v)[|k| + 1..] == v;
      var next := if ParamText(args[0], k).Some? then ParamText(args[0], k) else unset;
      ParamValueIsLast(args[1..], k, next, if j > 0 then j - 1 else 0, v);
    }
  }

  lemma InsertSets(params: map<string, string>, arg: Arg, k: string)
    requires arg.flag == "--param"
    ensures FormValue(InsertParam(params, arg.value), k) ==
            if ParamText(arg, k).Some? then ParamText(arg, k) else FormValue(params, k)
  {
    match arg.value
    case None =>
    case Some(text) =>
      if ParamText(arg, k).Some? {
        assert text == k + "=" + text[|k| + 1..];
        SplitAtFirst(k, text[|k| + 1..]);
      }
  }

  const RUN_FLAGS := {"--endpoint", "--selected", "--active", "--param"}

  lemma {:induction false} ReadRunIs(
    argv: seq<string>, i: nat, flags: RunFlags, endpoint: Option<string>, csv: Option<string>, k: string)
    requires flags.endpoint == OrEmpty(endpoint) && flags.selected == SplitIds(OrEmpty(csv))
    ensures var r, args := ReadRun(argv, i, flags), ArgsFrom(argv, i, RUN_FLAGS);
            && r.endpoint == OrEmpty(Value(args, "--endpoint", endpoint))
            && r.selected == SplitIds(OrEmpty(Value(args, "--selected", csv)))
            && r.active == Value(args, "--active", flags.active)
            && FormValue(r.params, k) == ParamValue(args, k, FormValue(flags.params, k))
    decreases |argv| - i
  {
    hide SplitIds, InsertParam;
    if i < |argv| {
      if argv[i] in RUN_FLAGS {
        var arg := Arg(argv[i], At(argv, i + 1));
        if arg.flag == "--param" { InsertSets(flags.params, arg, k); }
        var rest := ArgsFrom(argv, i + 2, RUN_FLAGS);
        assert ([arg] + rest)[1..] == rest;
        ReadRunIs(argv, i + 2, ApplyFlag(flags, arg.flag, arg.value),
                  if arg.flag == "--endpoint" then arg.value else endpoint,
                  if arg.flag == "--selected" then arg.value else csv, k);
      } else {
        ReadRunIs(argv, i + 1, flags, endpoint, csv, k);
      }
    }
  }

  lemma {:induction false} ReadHookIs(argv: seq<string>, i: nat, flags: HookArgs, endpoint: Option<string>)
    requires flags.endpoint == OrEmpty(endpoint)
    ensures var r, args := ReadHook(argv, i, flags), ArgsFrom(argv, i, {"--endpoint", "--item", "--category"});
            && r.endpoint == OrEmpty(Value(args, "--endpoint", endpoint))
            && r.item == Value(args, "--item", flags.item) && r.category == Value(args, "--category", flags.category)
    decreases |argv| - i
  {
    var known := {"--endpoint", "--item", "--category"};
    if i < |argv| {
      if argv[i] in known {
        var value := At(argv, i + 1);
        var rest := ArgsFrom(argv, i + 2, known);
        assert ([Arg(argv[i], value)] + rest)[1..] == rest;
        var next := if argv[i] == "--endpoint" then flags.(endpoint := OrEmpty(value))
                    else if argv[i] == "--item" then flags.(item := value) else flags.(category := value);
        ReadHookIs(argv, i + 2, next, if argv[i] == "--endpoint" then value else endpoint);
      } else {
        ReadHookIs(argv, i + 1, flags, endpoint);
      }
    }
  }

  lemma {:induction false} ReadCronIs(argv: seq<string>, i: nat, endpoint: Option<string>)
    ensures ReadCron(argv, i, OrEmpty(endpoint)) ==
            OrEmpty(Value(ArgsFrom(argv, i, {"--endpoint"}), "--endpoint", endpoint))
    decreases |argv| - i
  {
    if i < |argv| {
      if argv[i] == "--endpoint" {
        var value := At(argv, i + 1);
        var rest := ArgsFrom(argv, i + 2, {"--endpoint"});
        assert ([Arg(argv[i], value)] + rest)[1..] == rest;
        ReadCronIs(argv, i + 2, value);
      } else {
        ReadCronIs(argv, i + 1, endpoint);
      }
    }
  }

  /**
    What the parser makes of any argument vector at all: every field is what the last occurrence of its flag says, every
    parameter what the last argument for it says, and without an endpoint there is no invocation.
   */
  lemma ParsedIs(argv: seq<string>)
    ensures argv != [] && argv[0] == "manifest" ==> Parsed(argv) == Some(Manifest)
    ensures argv == [] || argv[0] !in {"manifest", "hook", "cron", "run"} ==> Parsed(argv) == None
    ensures |argv| == 1 && argv[0] != "manifest" ==> Parsed(argv) == None
    ensures |argv| >= 2 && argv[0] == "run" ==>
              var args := ArgsFrom(argv, 2, {"--endpoint", "--selected", "--active", "--param"});
              var endpoint := OrEmpty(Value(args, "--endpoint", None));
              if endpoint == "" then Parsed(argv) == None
              else
                && Parsed(argv).Some? && Parsed(argv).value.Run?
                && var r := Parsed(argv).value;
                   && r.action == argv[1] && r.endpoint == endpoint
                   && r.selected == SplitIds(OrEmpty(Value(args, "--selected", None)))
                   && r.active == Value(args, "--active", None)
                   && forall k :: FormValue(r.params, k) == ParamValue(args, k, None)
    ensures |argv| >= 2 && argv[0] == "hook" ==>
              var args := ArgsFrom(argv, 2, {"--endpoint", "--item", "--category"});
              var endpoint := OrEmpty(Value(args, "--endpoint", None));
              Parsed(argv) == if endpoint == "" then None
                              else Some(Hook(argv[1], endpoint, Value(args, "--item", None),
                                             Value(args, "--category", None)))
    ensures |argv| >= 2 && argv[0] == "cron" ==>
              var endpoint := OrEmpty(Value(ArgsFrom(argv, 2, {"--endpoint"}), "--endpoint", None));
              Parsed(argv) == if endpoint == "" then None else Some(Cron(argv[1], endpoint))
  {
    hide ReadRun, ReadHook, ReadCron, Value, ParamValue, ArgsFrom;
    var start := RunFlags("", [], None, map[]);
    NoIds();
    ReadRunIs(argv, 2, start, None, None, "");
    forall k
      ensures FormValue(ReadRun(argv, 2, start).params, k) == ParamValue(ArgsFrom(argv, 2, RUN_FLAGS), k, None)
    {
      ReadRunIs(argv, 2, start, None, None, k);
    }
    ReadHookIs(argv, 2, HookArgs("", None, None), None);
    ReadCronIs(argv, 2, None);
  }

  // ---------- round trips ----------

  /** The parameters as the plugin should see them: a later one wins. */
  function ParamMap(params: seq<(string, string)>): (r: map<string, string>)
    ensures forall p :: p in params ==> p.0 in r
  {
    if params == [] then map[]
    else
      var last := params[|params| - 1];
      assert forall p :: p in params ==> p in params[..|params| - 1] || p == last;
      ParamMap(params[..|params| - 1])[last.0 := last.1]
  }

  /** The parameters as they are actually read back. */
  function ReadBack(params: seq<(string, string)>): (r: map<string, string>) {
    if params == [] then map[]
    else
      var last := params[|params| - 1];
      InsertParam(ReadBack(params[..|params| - 1]), Some(last.0 + "=" + last.1))
  }

  lemma {:induction false} ReadBackKeys(params: seq<(string, string)>)
    ensures forall k :: k in ReadBack(params) ==> '=' !in k
  {
    if params != [] { ReadBackKeys(params[..|params| - 1]); }
  }

  lemma SplitAtFirst(k: string, v: string)
    requires '=' !in k
    ensures SplitOnce(k + "=" + v, '=') == Some((k, v))
  {
    var s := k + "=" + v;
    assert s[|k|] == '=';
    var (k', v') := SplitOnce(s, '=').value;
    assert s[|k'|] == '=';
    assert |k'| == |k|;
    assert k' == s[..|k'|] && k == s[..|k|];
    assert v' == s[|k'| + 1..] && v == s[|k| + 1..];
  }

  lemma {:induction false} ReadBackExact(params: seq<(string, string)>)
    ensures ReadBack(params) == ParamMap(params) <==> forall p :: p in params ==> '=' !in p.0
  {
    if forall p :: p in params ==> '=' !in p.0 {
      ReadBackPlain(params);
    } else {
      var p :| p in params && '=' in p.0;
      ReadBackKeys(params);
      assert p.0 in ParamMap(params);
    }
  }

  lemma {:induction false} ReadBackPlain(params: seq<(string, string)>)
    requires forall p :: p in params ==> '=' !in p.0
    ensures ReadBack(params) == ParamMap(params)
  {
    if params != [] {
      var n := |params| - 1;
      assert params[n] in params;
      assert forall p :: p in params[..n] ==> p in params;
      ReadBackPlain(params[..n]);
      SplitAtFirst(params[n].0, params[n].1);
    }
  }

  /** Reading an argument vector that ends with printed parameters. */
  lemma {:induction false} ReadParams(argv: seq<string>, i: nat, params: seq<(string, string)>, flags: RunFlags)
    requires i <= |argv| && argv[i..] == ParamArgs(params) && flags.params == map[]
    ensures ReadRun(argv, i, flags) == flags.(params := ReadBack(params))
  {
    ReadParamsFrom(argv, i, params, 0, flags);
    assert params[..0] == [];
  }

  lemma {:induction false} ParamArgsAt(params: seq<(string, string)>, k: nat)
    requires k < |params|
    ensures |ParamArgs(params)| == 2 * |params|
    ensures ParamArgs(params)[2 * k] == "--param"
    ensures ParamArgs(params)[2 * k + 1] == params[k].0 + "=" + params[k].1
  {
    var n := |params| - 1;
    if n > 0 {
      ParamArgsAt(params[..n], if k < n then k else 0);
    }
  }

  /** One printed parameter takes the reader two positions further. */
  lemma ReadParam(argv: seq<string>, i: nat, params: seq<(string, string)>, k: nat, flags: RunFlags)
    requires k < |params| && flags.params == ReadBack(params[..k])
    requires i + 1 < |argv| && argv[i] == "--param" && argv[i + 1] == params[k].0 + "=" + params[k].1
    ensures ReadRun(argv, i, flags) == ReadRun(argv, i + 2, flags.(params := ReadBack(params[..k + 1])))
  {
    hide SplitOnce;
    assert params[..k + 1][..k] == params[..k];
    assert ApplyFlag(flags, "--param", At(argv, i + 1)) == flags.(params := ReadBack(params[..k + 1]));
  }

  lemma {:induction false} ReadParamsFrom(
    argv: seq<string>, i: nat, params: seq<(string, string)>, k: nat, flags: RunFlags)
    requires i <= |argv| && argv[i..] == ParamArgs(params) && k <= |params|
    requires flags.params == ReadBack(params[..k])
    ensures ReadRun(argv, i + 2 * k, flags) == flags.(params := ReadBack(params))
    decreases |params| - k
  {
    hide ReadBack, ParamArgs;
    if k < |params| {
      ParamArgsAt(params, k);
      assert argv[i + 2 * k] == argv[i..][2 * k] && argv[i + 2 * k + 1] == argv[i..][2 * k + 1];
      ReadParam(argv, i + 2 * k, params, k, flags);
      ReadParamsFrom(argv, i, params, k + 1, flags.(params := ReadBack(params[..k + 1])));
    } else {
      assert params[..k] == params;
      ParamArgsLength(params);
    }
  }

  lemma {:induction false} ParamArgsLength(params: seq<(string, string)>)
    ensures |ParamArgs(params)| == 2 * |params|
  {
    if params != [] { ParamArgsAt(params, 0); }
  }

  /** What the parser makes of any printed action invocation. */
  lemma ReadAction(action: string, args: ActionArgs)
    ensures ReadRun(ActionArgv(action, args), 2, RunFlags("", [], None, map[])) ==
            RunFlags(args.endpoint, if args.selected == [] then [] else SplitIds(JoinIds(args.selected)), args.active,
                     ReadBack(args.params))
  {
    var argv := ActionArgv(action, args);
    var f1 := RunFlags(args.endpoint, [], None, map[]);
    assert argv[2] == "--endpoint" && argv[3] == args.endpoint;
    var i := 4;
    var f2 := f1;
    if args.selected != [] {
      assert argv[4] == "--selected" && argv[5] == JoinIds(args.selected);
      i, f2 := 6, f1.(selected := SplitIds(JoinIds(args.selected)));
      assert ReadRun(argv, 4, f1) == ReadRun(argv, 6, f2);
    }
    if args.active.Some? {
      assert argv[i] == "--active" && argv[i + 1] == args.active.value;
      assert argv[i + 2..] == ParamArgs(args.params);
      ReadParams(argv, i + 2, args.params, f2.(active := args.active));
    } else {
      assert argv[i..] == ParamArgs(args.params);
      ReadParams(argv, i, args.params, f2);
    }
  }

  /** What a plugin is handed for any printed action invocation. */
  lemma ParsedAction(action: string, args: ActionArgs)
    ensures Parsed(ActionArgv(action, args)) ==
            if args.endpoint == "" then None
            else Some(Run(action, args.endpoint, if args.selected == [] then [] else SplitIds(JoinIds(args.selected)),
                          args.active, ReadBack(args.params)))
  {
    hide ReadRun, SplitIds, JoinIds, ReadBack, ParamArgs;
    ReadAction(action, args);
    var argv := ActionArgv(action, args);
    assert |argv| >= 4 && argv[0] == "run" && argv[1] == action;
  }

  /**
    An action invocation survives printing and parsing exactly when the endpoint is not empty, every selected id is
    non-empty and without a comma, and no parameter name contains an equals sign. Values may be anything, including
    texts that look like flags.
   */
  lemma ActionRoundTrip(action: string, args: ActionArgs)
    ensures
      Parsed(ActionArgv(action, args)) ==
        Some(Run(action, args.endpoint, args.selected, args.active, ParamMap(args.params)))
      <==>
      && args.endpoint != ""
      && (forall id :: id in args.selected ==> PlainId(id))
      && (forall p :: p in args.params ==> '=' !in p.0)
  {
    hide Parsed, ActionArgv, SplitIds, JoinIds, ReadBack, ParamMap, PlainId;
    ParsedAction(action, args);
    ReadBackExact(args.params);
    if forall id :: id in args.selected ==> PlainId(id) {
      SplitJoinedIds(args.selected);
    }
    SplitIdsArePlain(JoinIds(args.selected));
  }

  lemma HookRoundTrip(event: string, args: HookArgs)
    ensures Parsed(HookArgv(event, args)) == Some(Hook(event, args.endpoint, args.item, args.category))
            <==> args.endpoint != ""
  {
    var argv := HookArgv(event, args);
    var a1 := HookArgs(args.endpoint, None, None);
    assert argv[2] == "--endpoint" && argv[3] == args.endpoint;
    assert ReadHook(argv, 2, HookArgs("", None, None)) == ReadHook(argv, 4, a1);
    if args.item.Some? {
      assert argv[4] == "--item" && argv[5] == args.item.value;
      var a2 := a1.(item := args.item);
      assert ReadHook(argv, 4, a1) == ReadHook(argv, 6, a2);
      if args.category.Some? {
        assert argv[6] == "--category" && argv[7] == args.category.value;
        assert ReadHook(argv, 6, a2) == ReadHook(argv, 8, args);
      }
    } else if args.category.Some? {
      assert argv[4] == "--category" && argv[5] == args.category.value;
      assert ReadHook(argv, 4, a1) == ReadHook(argv, 6, args);
    }
  }

  lemma CronRoundTrip(job: string, endpoint: string)
    ensures Parsed(CronArgv(job, endpoint)) == Some(Cron(job, endpoint)) <==> endpoint != ""
  {
    var argv := CronArgv(job, endpoint);
    assert argv[2] == "--endpoint" && argv[3] == endpoint;
    assert ReadCron(argv, 2, "") == ReadCron(argv, 4, endpoint);
  }

  // ---------- from a submitted form ----------

  datatype Target = Selection | Active | NoTarget

  datatype UiAction = UiAction(id: string, target: Target)

  datatype UiPage = UiPage(action: Option<string>, preview: Option<string>, target: Target)

  datatype UiSpec = UiSpec(actions: seq<UiAction>, pages: seq<UiPage>)

  const RESERVED := {"plugin_action", "action", "return_to", "selected", "active"}

  function ActionTarget(actions: seq<UiAction>, name: string): (r: Option<Target>) {
    if actions == [] then None
    else if actions[0].id == name then Some(actions[0].target) else ActionTarget(actions[1..], name)
  }

  function PageTarget(pages: seq<UiPage>, name: string): (r: Option<Target>) {
    if pages == [] then None
    else if pages[0].action == Some(name) then Some(pages[0].target) else PageTarget(pages[1..], name)
  }

  function PreviewTarget(pages: seq<UiPage>, name: string): (r: Option<Target>) {
    if pages == [] then None
    else if pages[0].preview == Some(name) then Some(pages[0].target) else PreviewTarget(pages[1..], name)
  }

  /** The declared target: a global action first, then a page's action, then a page's preview. */
  function DeclaredTarget(ui: Option<UiSpec>, name: string): (r: Target) {
    match ui
    case None => NoTarget
    case Some(spec) =>
      match ActionTarget(spec.actions, name)
      case Some(t) => t
      case None =>
        match PageTarget(spec.pages, name)
        case Some(t) => t
        case None => match PreviewTarget(spec.pages, name) case Some(t) => t case None => NoTarget
  }

  /** The first of the lists that names the action decides, and in it the first entry that does. */
  lemma {:induction false} DeclaredTargetIs(spec: UiSpec, name: string)
    ensures DeclaredTarget(None, name) == NoTarget
    ensures
      var target, actions, pages := DeclaredTarget(Some(spec), name), spec.actions, spec.pages;
      && (forall i :: 0 <= i < |actions| && actions[i].id == name
                      && (forall j :: 0 <= j < i ==> actions[j].id != name) ==>
            target == actions[i].target)
      && ((forall j :: 0 <= j < |actions| ==> actions[j].id != name) ==>
            && (forall i :: 0 <= i < |pages| && pages[i].action == Some(name)
                            && (forall j :: 0 <= j < i ==> pages[j].action != Some(name)) ==>
                  target == pages[i].target)
            && ((forall j :: 0 <= j < |pages| ==> pages[j].action != Some(name)) ==>
                  && (forall i :: 0 <= i < |pages| && pages[i].preview == Some(name)
                                  && (forall j :: 0 <= j < i ==> pages[j].preview != Some(name)) ==>
                        target == pages[i].target)
                  && ((forall j :: 0 <= j < |pages| ==> pages[j].preview != Some(name)) ==> target == NoTarget)))
  {
    hide ActionTarget, PageTarget, PreviewTarget;
    FirstAction(spec.actions, name);
    FirstPage(spec.pages, name);
    FirstPreview(spec.pages, name);
  }

  lemma {:induction false} FirstAction(actions: seq<UiAction>, name: string)
    ensures (forall j :: 0 <= j < |actions| ==> actions[j].id != name) <==> ActionTarget(actions, name) == None
    ensures forall i :: 0 <= i < |actions| && actions[i].id == name && (forall j :: 0 <= j < i ==> actions[j].id != name) ==>
              ActionTarget(actions, name) == Some(actions[i].target)
  {
    if actions != [] && actions[0].id != name {
      var rest := actions[1..];
      FirstAction(rest, name);
      assert forall i :: 1 <= i < |actions| ==> actions[i] == rest[i - 1];
      assert forall i :: 0 <= i < |rest| ==> rest[i] == actions[i + 1];
    }
  }

  lemma {:induction false} FirstPage(pages: seq<UiPage>, name: string)
    ensures (forall j :: 0 <= j < |pages| ==> pages[j].action != Some(name)) <==> PageTarget(pages, name) == None
    ensures forall i :: 0 <= i < |pages| && pages[i].action == Some(name)
                        && (forall j :: 0 <= j < i ==> pages[j].action != Some(name)) ==>
              PageTarget(pages, name) == Some(pages[i].target)
  {
    if pages != [] && pages[0].action != Some(name) {
      var rest := pages[1..];
      FirstPage(rest, name);
      assert forall i :: 1 <= i < |pages| ==> pages[i] == rest[i - 1];
      assert forall i :: 0 <= i < |rest| ==> rest[i] == pages[i + 1];
    }
  }

  lemma {:induction false} FirstPreview(pages: seq<UiPage>, name: string)
    ensures (forall j :: 0 <= j < |pages| ==> pages[j].preview != Some(name)) <==> PreviewTarget(pages, name) == None
    ensures forall i :: 0 <= i < |pages| && pages[i].preview == Some(name)
                        && (forall j :: 0 <= j < i ==> pages[j].preview != Some(name)) ==>
              PreviewTarget(pages, name) == Some(pages[i].target)
  {
    if pages != [] && pages[0].preview != Some(name) {
      var rest := pages[1..];
      FirstPreview(rest, name);
      assert forall i :: 1 <= i < |pages| ==> pages[i] == rest[i - 1];
      assert forall i :: 0 <= i < |rest| ==> rest[i] == pages[i + 1];
    }
  }

  function FormValue(form: map<string, string>, key: string): (r: Option<string>) {
    if key in form then Some(form[key]) else None
  }

  /** The form fields that become parameters, in the order the form lists its keys. */
  function FormParams(form: map<string, string>, keys: seq<string>): (r: seq<(string, string)>)
    requires forall k :: k in keys ==> k in form
  {
    if keys == [] then []
    else
      var front, last := keys[..|keys| - 1], keys[|keys| - 1];
      FormParams(form, front) + (if last in RESERVED then [] else [(last, form[last])])
  }

  function FormIds(form: map<string, string>): (r: seq<string>) {
    SplitIds(OrEmpty(FormValue(form, "selected")))
  }

  function FormActive(form: map<string, string>): (r: Option<string>) {
    if FormValue(form, "active") == Some("") then None else FormValue(form, "active")
  }

  /** Turn a submitted form into the arguments of an action; `keys` lists the form's keys in order. */
  function BuildActionArgs(
    ui: Option<UiSpec>, name: string, endpoint: string, form: map<string, string>, keys: seq<string>): (r: ActionArgs)
    requires forall k :: k in keys ==> k in form
  {
    var target := DeclaredTarget(ui, name);
    ActionArgs(
      endpoint,
      if target == Selection then FormIds(form) else [],
      if target == Active then FormActive(form) else None,
      FormParams(form, keys))
  }

  lemma {:induction false} FormParamsAre(form: map<string, string>, keys: seq<string>, p: (string, string))
    requires forall k :: k in keys ==> k in form
    ensures p in FormParams(form, keys) <==> p.0 in keys && p.0 !in RESERVED && p.1 == form[p.0]
  {
    if keys != [] {
      var n := |keys| - 1;
      FormParamsAre(form, keys[..n], p);
      assert keys == keys[..n] + [keys[n]];
    }
  }

  lemma ParamMapSnoc(params: seq<(string, string)>, p: (string, string))
    ensures ParamMap(params + [p]) == ParamMap(params)[p.0 := p.1]
  {
  }

  /** The fields `keys` of a form, without the reserved ones. */
  function FormFields(form: map<string, string>, keys: seq<string>): (r: map<string, string>) {
    map k | k in form && k in keys && k !in RESERVED :: form[k]
  }

  lemma FormSnoc(form: map<string, string>, keys: seq<string>, last: string)
    requires last in form && forall k :: k in keys ==> k in form
    ensures FormParams(form, keys + [last]) ==
            if last in RESERVED then FormParams(form, keys) else FormParams(form, keys) + [(last, form[last])]
    ensures FormFields(form, keys + [last]) ==
            if last in RESERVED then FormFields(form, keys) else FormFields(form, keys)[last := form[last]]
  {
  }

  lemma {:induction false} FormParamsMap(form: map<string, string>, keys: seq<string>)
    requires forall k :: k in keys ==> k in form
    ensures ParamMap(FormParams(form, keys)) == FormFields(form, keys)
  {
    if keys == [] {
      assert FormFields(form, keys) == map[];
    } else {
      hide ParamMap, FormParams, FormFields;
      var n := |keys| - 1;
      FormParamsMap(form, keys[..n]);
      assert keys == keys[..n] + [keys[n]];
      FormSnoc(form, keys[..n], keys[n]);
      ParamMapSnoc(FormParams(form, keys[..n]), (keys[n], form[keys[n]]));
    }
  }

  /**
    End to end: for every form, parsing what is printed for the arguments built from it returns the action, the
    endpoint, the targeted ids and the non-reserved fields, exactly when the endpoint is not empty and no
    non-reserved field name contains an equals sign.
   */
  lemma FormRoundTrip(
    ui: Option<UiSpec>, name: string, endpoint: string, form: map<string, string>, keys: seq<string>)
    requires Elements(keys) == form.Keys
    ensures (forall k :: k in keys ==> k in form)
    ensures
      var target := DeclaredTarget(ui, name);
      Parsed(ActionArgv(name, BuildActionArgs(ui, name, endpoint, form, keys))) ==
        Some(Run(name, endpoint,
                 if target == Selection then FormIds(form) else [],
                 if target == Active then FormActive(form) else None,
                 form - RESERVED))
      <==>
      endpoint != "" && forall k :: k in form && k !in RESERVED ==> '=' !in k
  {
    assert forall k :: k in keys <==> k in Elements(keys);
    var args := BuildActionArgs(ui, name, endpoint, form, keys);
    ActionRoundTrip(name, args);
    FormParamsMap(form, keys);
    assert ParamMap(args.params) == form - RESERVED;
    SplitIdsArePlain(OrEmpty(FormValue(form, "selected")));
    forall k | k in form && k !in RESERVED
      ensures (k, form[k]) in args.params
    {
      FormParamsAre(form, keys, (k, form[k]));
    }
    forall p | p in args.params
      ensures p.0 in form && p.0 !in RESERVED
    {
      FormParamsAre(form, keys, p);
    }
  }

  /**
    The same, field by field: what the plugin is handed. Under `Selection` these are the ids that the form lists, in
    order, under `Active` the active id if it is not empty; nothing else of the two is ever handed on. The parameters are
    the other fields, without the three that are for the host.
   */
  lemma FormDelivers(
    ui: Option<UiSpec>, name: string, endpoint: string, form: map<string, string>, keys: seq<string>, ids: seq<string>)
    requires Elements(keys) == form.Keys && endpoint != ""
    requires forall k :: k in form && '=' in k ==> k in {"plugin_action", "action", "return_to", "selected", "active"}
    ensures (forall k :: k in keys ==> k in form)
    ensures
      var target := DeclaredTarget(ui, name);
      var got := Parsed(ActionArgv(name, BuildActionArgs(ui, name, endpoint, form, keys)));
      && got.Some? && got.value.Run? && got.value.action == name && got.value.endpoint == endpoint
      && ((&& target == Selection && "selected" in form && form["selected"] == JoinIds(ids)
           && (forall id :: id in ids ==> id != "" && ',' !in id)) ==> got.value.selected == ids)
      && (target != Selection || "selected" !in form ==> got.value.selected == [])
      && (target == Active && "active" in form && form["active"] != "" ==> got.value.active == Some(form["active"]))
      && (target != Active || "active" !in form || form["active"] == "" ==> got.value.active == None)
      && (forall k :: k in got.value.params <==>
                      k in form && k !in {"plugin_action", "action", "return_to", "selected", "active"})
      && (forall k :: k in got.value.params ==> got.value.params[k] == form[k])
  {
    hide Parsed, ActionArgv, BuildActionArgs, DeclaredTarget, FormIds, FormActive, JoinIds;
    assert forall k :: k in form && k !in RESERVED ==> '=' !in k;
    FormRoundTrip(ui, name, endpoint, form, keys);
    HandedOn(form, ids);
  }

  /** What the fields of a form say. */
  lemma HandedOn(form: map<string, string>, ids: seq<string>)
    ensures (&& "selected" in form && form["selected"] == JoinIds(ids)
             && (forall id :: id in ids ==> id != "" && ',' !in id)) ==>
              FormIds(form) == ids
    ensures "selected" !in form ==> FormIds(form) == []
    ensures FormActive(form) == if "active" in form && form["active"] != "" then Some(form["active"]) else None
    ensures forall k :: k in form - RESERVED <==>
                        k in form && k !in {"plugin_action", "action", "return_to", "selected", "active"}
    ensures forall k :: k in form - RESERVED ==> (form - RESERVED)[k] == form[k]
  {
    hide SplitIds, JoinIds;
    NoIds();
    if forall id :: id in ids ==> id != "" && ',' !in id { SplitJoinedIds(ids); }
  }
}
