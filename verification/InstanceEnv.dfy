/**
 The file the host writes for a guest to read at boot, one KEY=VALUE per line, and its reader. The
 round trip is proved for everything the writer accepts, with the exact conditions on what it
 writes for the reader to take it.
 */
module InstanceEnv {
  import opened Basics
  import opened Results
  import R = References

  datatype Pair = Pair(key: string, value: string)

  datatype Hostname = Hostname(name: string, platform: bool)

  /** The backoff factor is the text the writer makes of a floating-point number. */
  datatype Content = Content(
    httpPort: nat, layers: nat, hostnames: seq<Hostname>, program: string, workingDirectory: string,
    args: seq<string>, environment: seq<Pair>,
    maxRestarts: nat, initialBackoffMs: nat, maxBackoffMs: nat, backoffFactor: string, resetAfterMs: nat)

  /** What the guest takes from the file; the backoff factor as whatever number its text reads as. */
  datatype Config<F> = Config(
    httpPort: nat, layers: nat, program: string, workingDirectory: string, hostname: Option<string>,
    maxRestarts: nat, initialBackoffMs: nat, maxBackoffMs: nat, backoffFactor: F, resetAfterMs: nat,
    nameservers: seq<string>, arguments: seq<string>, environment: seq<Pair>)

  datatype EnvError =
    | Missing(key: string)
    | Malformed(key: string)
    | UnknownReference(key: string, reference: string)
    | TooManyArguments
    | TooManyVariables

  const MAX_ARGUMENTS: nat := 64
  const MAX_VARIABLES: nat := 256
  const MAX_NAMESERVERS: nat := 3
  const U32: nat := 0x1_0000_0000
  const TENANT := "ENV_"
  const ARG := R.PREFIX + "ARG_"
  const FIRST_SERVER := "1.1.1.1"
  const SECOND_SERVER := "1.0.0.1"
  const DNS := FIRST_SERVER + "," + SECOND_SERVER

  function Key(name: string): string {
    R.PREFIX + name
  }

  // Text.

  predicate Breaks(s: string) {
    '\n' in s || '\r' in s || '\0' in s
  }

  function Find(s: string, c: char): (k: nat)
    ensures k <= |s|
    ensures forall i :: 0 <= i < k ==> s[i] != c
    ensures k < |s| ==> s[k] == c
  {
    if s == "" || s[0] == c then 0 else 1 + Find(s[1..], c)
  }

  function Unlines(lines: seq<string>): string {
    if lines == [] then "" else lines[0] + "\n" + Unlines(lines[1..])
  }

  function WithoutReturn(line: string): string {
    if line != "" && line[|line| - 1] == '\r' then line[..|line| - 1] else line
  }

  /** Lines end at a newline, with a carriage return before it dropped too; a last one need not end. */
  function LinesOf(text: string): seq<string>
    decreases |text|
  {
    if text == "" then []
    else
      var k := Find(text, '\n');
      if k == |text| then [text] else [WithoutReturn(text[..k])] + LinesOf(text[k + 1..])
  }

  lemma {:induction false} LinesRoundTrip(lines: seq<string>)
    requires forall i :: 0 <= i < |lines| ==> !Breaks(lines[i])
    ensures LinesOf(Unlines(lines)) == lines
  {
    if lines != [] {
      var text := Unlines(lines);
      var line, rest := lines[0], Unlines(lines[1..]);
      assert !Breaks(line);
      FindAt(line, rest, '\n');
      assert text == line + ['\n'] + rest;
      assert text[..|line|] == line && text[|line| + 1..] == rest;
      LinesRoundTrip(lines[1..]);
      assert line != "" ==> line[|line| - 1] in line;
    }
  }

  lemma FindAt(a: string, b: string, c: char)
    requires c !in a
    ensures Find(a + [c] + b, c) == |a|
  {
    var s := a + [c] + b;
    assert s[|a|] == c;
    assert forall i :: 0 <= i < |a| ==> s[i] == a[i] && a[i] in a;
  }

  function Line(p: Pair): string {
    p.key + "=" + p.value
  }

  function SplitOnce(line: string): Option<Pair> {
    var k := Find(line, '=');
    if k == |line| then None else Some(Pair(line[..k], line[k + 1..]))
  }

  lemma SplitLine(p: Pair)
    requires '=' !in p.key
    ensures SplitOnce(Line(p)) == Some(p)
  {
    FindAt(p.key, p.value, '=');
    var line := Line(p);
    assert line == p.key + ['='] + p.value;
    assert line[..|p.key|] == p.key && line[|p.key| + 1..] == p.value;
  }

  // Numbers.

  function Digit(n: nat): char
    requires n < 10
  {
    "0123456789"[n]
  }

  function DigitValue(c: char): Option<nat> {
    if '0' <= c <= '9' then Some(c as nat - '0' as nat) else None
  }

  lemma DigitRoundTrip(n: nat)
    requires n < 10
    ensures DigitValue(Digit(n)) == Some(n)
  {
  }

  function Digits(n: nat): (s: string)
    ensures s != ""
  {
    if n < 10 then [Digit(n)] else Digits(n / 10) + [Digit(n % 10)]
  }

  function DigitsValue(s: string): Option<nat> {
    if s == "" then None
    else if |s| == 1 then DigitValue(s[0])
    else
      var high, low := DigitsValue(s[..|s| - 1]), DigitValue(s[|s| - 1]);
      if high.None? || low.None? then None else Some(10 * high.value + low.value)
  }

  /** A 32-bit number as the guest reads it; a plus sign before the digits is taken too. */
  function ParseU32(s: string): Option<nat> {
    var value := DigitsValue(if |s| > 1 && s[0] == '+' then s[1..] else s);
    if value.Some? && value.value < U32 then value else None
  }

  lemma {:induction false} DigitsRoundTrip(n: nat)
    ensures DigitsValue(Digits(n)) == Some(n)
    ensures forall c :: c in Digits(n) ==> DigitValue(c).Some?
  {
    if n < 10 {
      DigitRoundTrip(n);
    } else {
      var s := Digits(n);
      DigitsRoundTrip(n / 10);
      DigitRoundTrip(n % 10);
      assert s[..|s| - 1] == Digits(n / 10) && s[|s| - 1] == Digit(n % 10);
      assert |s| > 1;
    }
  }

  lemma NumberRoundTrip(n: nat)
    ensures ParseU32(Digits(n)) == if n < U32 then Some(n) else None
    ensures !Breaks(Digits(n)) && '=' !in Digits(n)
  {
    DigitsRoundTrip(n);
    var s := Digits(n);
    assert s[0] in s;
  }

  // Writing.

  function PlatformHostname(hostnames: seq<Hostname>): Option<string> {
    if hostnames == [] then None
    else if hostnames[0].platform then Some(hostnames[0].name)
    else PlatformHostname(hostnames[1..])
  }

  function ArgKey(k: nat): string {
    ARG + Digits(k)
  }

  function ArgPairs(args: seq<string>, from: nat): seq<Pair>
    requires from <= |args|
    decreases |args| - from
  {
    if from == |args| then [] else [Pair(ArgKey(from), args[from])] + ArgPairs(args, from + 1)
  }

  function Fixed(c: Content): seq<Pair> {
    [Pair(Key("HTTP_PORT"), Digits(c.httpPort)), Pair(Key("LAYERS"), Digits(c.layers)),
     Pair(Key("PROGRAM"), c.program), Pair(Key("CWD"), c.workingDirectory)]
    + (if PlatformHostname(c.hostnames).Some? then [Pair(Key("HOSTNAME"), PlatformHostname(c.hostnames).value)] else [])
    + [Pair(Key("MAX_RESTARTS"), Digits(c.maxRestarts)), Pair(Key("INITIAL_BACKOFF_MS"), Digits(c.initialBackoffMs)),
       Pair(Key("MAX_BACKOFF_MS"), Digits(c.maxBackoffMs)), Pair(Key("BACKOFF_FACTOR"), c.backoffFactor),
       Pair(Key("RESET_AFTER_MS"), Digits(c.resetAfterMs)), Pair(Key("DNS"), DNS)]
  }

  function Runtime(c: Content): seq<Pair> {
    Fixed(c) + ArgPairs(c.args, 0)
  }

  function TenantLines(environment: seq<Pair>): seq<Pair> {
    if environment == [] then []
    else [Pair(TENANT + environment[0].key, environment[0].value)] + TenantLines(environment[1..])
  }

  function LinesFor(pairs: seq<Pair>): seq<string> {
    if pairs == [] then [] else [Line(pairs[0])] + LinesFor(pairs[1..])
  }

  /** What the types of the writer's input already guarantee. */
  ghost predicate Typed(c: Content) {
    && c.httpPort < 0x1_0000 && c.maxRestarts < U32
    && !Breaks(c.program) && !Breaks(c.workingDirectory) && !Breaks(c.backoffFactor)
    && (forall i :: 0 <= i < |c.hostnames| ==> !Breaks(c.hostnames[i].name))
    && |c.args| <= MAX_ARGUMENTS
    && (forall i :: 0 <= i < |c.environment| ==> '=' !in c.environment[i].key && !Breaks(c.environment[i].key))
  }

  /** Nothing an argument or variable holds would end its line. */
  predicate Representable(c: Content) {
    && (forall i :: 0 <= i < |c.args| ==> '\n' !in c.args[i] && '\r' !in c.args[i] && '\0' !in c.args[i])
    && forall i :: 0 <= i < |c.environment| ==>
         var value := c.environment[i].value;
         '\n' !in value && '\r' !in value && '\0' !in value
  }

  function Rendered(c: Content): string {
    Unlines(LinesFor(Runtime(c) + TenantLines(c.environment)))
  }

  lemma {:induction false} LinesForConcat(a: seq<Pair>, b: seq<Pair>)
    ensures LinesFor(a + b) == LinesFor(a) + LinesFor(b)
    decreases |a|
  {
    if a == [] {
      assert a + b == b;
    } else {
      assert (a + b)[1..] == a[1..] + b;
      LinesForConcat(a[1..], b);
    }
  }

  lemma LinesForOne(p: Pair)
    ensures LinesFor([p]) == [Line(p)]
  {
    assert [p][1..] == [];
  }

  lemma LinesStep(lines: seq<string>, p: Pair, rest: seq<Pair>)
    ensures lines + LinesFor([p] + rest) == (lines + [Line(p)]) + LinesFor(rest)
  {
    LinesForOne(p);
    LinesForConcat([p], rest);
  }

  /** The first argument, or failing that the first variable, that has no representation. */
  ghost predicate FirstBroken(c: Content, name: string) {
    || FirstArgument(c.args, name)
    || ((forall i :: 0 <= i < |c.args| ==> !Breaks(c.args[i])) && FirstVariable(c.environment, name))
  }

  ghost predicate FirstArgument(args: seq<string>, name: string) {
    exists k: nat :: k < |args| && Breaks(args[k]) && name == ArgKey(k) && forall i :: 0 <= i < k ==> !Breaks(args[i])
  }

  ghost predicate FirstVariable(all: seq<Pair>, name: string) {
    exists k: nat :: k < |all| && Breaks(all[k].value) && name == all[k].key && forall i :: 0 <= i < k ==>
        !Breaks(all[i].value)
  }

  method RenderArguments(args: seq<string>) returns (r: Result<seq<string>, string>)
    ensures r.Ok? <==> forall i :: 0 <= i < |args| ==> !Breaks(args[i])
    ensures r.Ok? ==> r.value == LinesFor(ArgPairs(args, 0))
    ensures r.Err? ==> FirstArgument(args, r.error)
  {
    var lines: seq<string> := [];
    for k := 0 to |args|
      invariant forall i :: 0 <= i < k ==> !Breaks(args[i])
      invariant lines + LinesFor(ArgPairs(args, k)) == LinesFor(ArgPairs(args, 0))
    {
      if Breaks(args[k]) {
        return Err(ArgKey(k));
      }
      var p := Pair(ArgKey(k), args[k]);
      LinesStep(lines, p, ArgPairs(args, k + 1));
      lines := lines + [Line(p)];
    }
    assert lines + [] == lines;
    r := Ok(lines);
  }

  method RenderVariables(all: seq<Pair>) returns (r: Result<seq<string>, string>)
    ensures r.Ok? <==> forall i :: 0 <= i < |all| ==> !Breaks(all[i].value)
    ensures r.Ok? ==> r.value == LinesFor(TenantLines(all))
    ensures r.Err? ==> FirstVariable(all, r.error)
  {
    var lines: seq<string> := [];
    assert all[0..] == all;
    for k := 0 to |all|
      invariant forall i :: 0 <= i < k ==> !Breaks(all[i].value)
      invariant lines + LinesFor(TenantLines(all[k..])) == LinesFor(TenantLines(all))
    {
      if Breaks(all[k].value) {
        return Err(all[k].key);
      }
      var p := Pair(TENANT + all[k].key, all[k].value);
      assert all[k..][0] == all[k] && all[k..][1..] == all[k + 1..];
      LinesStep(lines, p, TenantLines(all[k + 1..]));
      lines := lines + [Line(p)];
    }
    assert all[|all|..] == [] && lines + [] == lines;
    r := Ok(lines);
  }

  /** The writer: it succeeds exactly on what has a representation, and names the first that has none. */
  method Render(c: Content) returns (r: Result<string, string>)
    ensures r.Ok? <==> Representable(c)
    ensures r.Ok? ==> r.value == Rendered(c)
    ensures r.Err? ==> FirstBroken(c, r.error)
  {
    var arguments := RenderArguments(c.args);
    if arguments.Err? {
      return Err(arguments.error);
    }
    var variables := RenderVariables(c.environment);
    if variables.Err? {
      return Err(variables.error);
    }
    LinesForConcat(Fixed(c), ArgPairs(c.args, 0));
    LinesForConcat(Runtime(c), TenantLines(c.environment));
    r := Ok(Unlines(LinesFor(Fixed(c)) + arguments.value + variables.value));
  }

  // Reading.

  datatype Sorted = Sorted(runtime: seq<Pair>, tenant: seq<Pair>)

  function Sort(lines: seq<string>): Result<Sorted, EnvError> {
    if lines == [] then Ok(Sorted([], []))
    else if lines[0] == "" then Sort(lines[1..])
    else
      var pair := SplitOnce(lines[0]);
      if pair.None? then Err(Malformed(lines[0][..if |lines[0]| < 32 then |lines[0]| else 32]))
      else
        var rest :- Sort(lines[1..]);
        var key := pair.value.key;
        if StartsWith(key, R.PREFIX) then Ok(rest.(runtime := [pair.value] + rest.runtime))
        else if StartsWith(key, TENANT)
            then Ok(rest.(tenant := [Pair(key[|TENANT|..], pair.value.value)] + rest.tenant))
        else Ok(rest)
  }

  function Named(runtime: seq<Pair>, key: string): Option<string> {
    if runtime == [] then None
    else if runtime[0].key == key then Some(runtime[0].value)
    else Named(runtime[1..], key)
  }

  function Number(runtime: seq<Pair>, key: string): Result<nat, EnvError> {
    var text := Named(runtime, key);
    if text.None? then Err(Missing(key))
    else
      var n := ParseU32(text.value);
      if n.None? then Err(Malformed(key)) else Ok(n.value)
  }

  function Required(runtime: seq<Pair>, key: string): Result<string, EnvError> {
    var text := Named(runtime, key);
    if text.None? then Err(Missing(key)) else Ok(text.value)
  }

  function ArgumentsFrom(runtime: seq<Pair>, k: nat): Result<seq<string>, EnvError>
    requires k <= MAX_ARGUMENTS
    decreases MAX_ARGUMENTS - k
  {
    var argument := Named(runtime, ArgKey(k));
    if argument.None? then Ok([])
    else if k == MAX_ARGUMENTS then Err(TooManyArguments)
    else
      var rest :- ArgumentsFrom(runtime, k + 1);
      Ok([argument.value] + rest)
  }

  function CountArguments(runtime: seq<Pair>): nat {
    if runtime == [] then 0
    else (if StartsWith(runtime[0].key, ARG) then 1 else 0) + CountArguments(runtime[1..])
  }

  function Offered(runtime: seq<Pair>): R.Lookup {
    (name: string) => if name == Key("HOSTNAME") || name == Key("HTTP_PORT") then Named(runtime, name) else None
  }

  function ExpandAll(tenant: seq<Pair>, lookup: R.Lookup): Result<seq<Pair>, EnvError> {
    if tenant == [] then Ok([])
    else
      var value := R.Expand(tenant[0].value, lookup);
      if value.Err? then Err(UnknownReference(tenant[0].key, value.error))
      else
        var rest :- ExpandAll(tenant[1..], lookup);
        Ok([Pair(tenant[0].key, value.value)] + rest)
  }

  function NonEmpty(parts: seq<string>): seq<string> {
    if parts == [] then [] else (if parts[0] == "" then [] else [parts[0]]) + NonEmpty(parts[1..])
  }

  predicate IsComma(c: char) {
    c == ','
  }

  function Nameservers(text: string): seq<string> {
    var entries := NonEmpty(SplitBy(text, IsComma));
    if |entries| > MAX_NAMESERVERS then entries[..MAX_NAMESERVERS] else entries
  }

  function ParseLists(runtime: seq<Pair>, tenant: seq<Pair>): Result<(seq<string>, seq<Pair>), EnvError> {
    var arguments :- ArgumentsFrom(runtime, 0);
    if CountArguments(runtime) != |arguments| then Err(Malformed(ArgKey(|arguments|)))
    else if |tenant| > MAX_VARIABLES then Err(TooManyVariables)
    else
      var environment :- ExpandAll(tenant, Offered(runtime));
      Ok((arguments, environment))
  }

  /** Reading a floating-point number. */
  type Float<!F> = string -> Option<F>

  function Factor<F>(float: Float<F>, runtime: seq<Pair>): Result<F, EnvError> {
    var text :- Required(runtime, Key("BACKOFF_FACTOR"));
    if float(text).None? then Err(Malformed(Key("BACKOFF_FACTOR"))) else Ok(float(text).value)
  }

  function ParseScalars<F>(
    float: Float<F>, runtime: seq<Pair>, nameservers: seq<string>, arguments: seq<string>, environment: seq<Pair>)
    : Result<Config<F>, EnvError>
  {
    var httpPort :- Number(runtime, Key("HTTP_PORT"));
    var layers :- Number(runtime, Key("LAYERS"));
    var program :- Required(runtime, Key("PROGRAM"));
    var workingDirectory :- Required(runtime, Key("CWD"));
    var maxRestarts :- Number(runtime, Key("MAX_RESTARTS"));
    var initialBackoffMs :- Number(runtime, Key("INITIAL_BACKOFF_MS"));
    var maxBackoffMs :- Number(runtime, Key("MAX_BACKOFF_MS"));
    var backoffFactor :- Factor(float, runtime);
    var resetAfterMs :- Number(runtime, Key("RESET_AFTER_MS"));
    Ok(Config(
      httpPort, layers, program, workingDirectory, Named(runtime, Key("HOSTNAME")),
      maxRestarts, initialBackoffMs, maxBackoffMs, backoffFactor, resetAfterMs,
      nameservers, arguments, environment))
  }

  function Parse<F>(float: Float<F>, text: string): Result<Config<F>, EnvError> {
    var sorted :- Sort(LinesOf(text));
    var dns :- Required(sorted.runtime, Key("DNS"));
    var lists :- ParseLists(sorted.runtime, sorted.tenant);
    ParseScalars(float, sorted.runtime, Nameservers(dns), lists.0, lists.1)
  }

  // The reader's loops.

  /** What the lines seen so far hold, followed by what the rest hold. */
  function Following(before: Sorted, later: Result<Sorted, EnvError>): Result<Sorted, EnvError> {
    if later.Err? then later
    else Ok(Sorted(before.runtime + later.value.runtime, before.tenant + later.value.tenant))
  }

  function WithLine(before: Sorted, p: Pair): Sorted {
    if StartsWith(p.key, R.PREFIX) then before.(runtime := before.runtime + [p])
    else if StartsWith(p.key, TENANT) then before.(tenant := before.tenant + [Pair(p.key[|TENANT|..], p.value)])
    else before
  }

  lemma FollowingNothing(later: Result<Sorted, EnvError>)
    ensures Following(Sorted([], []), later) == later
  {
    if later.Ok? {
      assert [] + later.value.runtime == later.value.runtime && [] + later.value.tenant == later.value.tenant;
    }
  }

  lemma FollowingLine(before: Sorted, line: string, lines: seq<string>)
    ensures
      Following(before, Sort([line] + lines)) ==
      if line == "" then Following(before, Sort(lines))
      else if SplitOnce(line).None? then Err(Malformed(line[..if |line| < 32 then |line| else 32]))
      else Following(WithLine(before, SplitOnce(line).value), Sort(lines))
  {
    assert ([line] + lines)[0] == line && ([line] + lines)[1..] == lines;
    var later := Sort(lines);
    if line != "" && SplitOnce(line).Some? && later.Ok? {
      var p := SplitOnce(line).value;
      assert before.runtime + ([p] + later.value.runtime) == (before.runtime + [p]) + later.value.runtime;
      if StartsWith(p.key, TENANT) {
        var own := Pair(p.key[|TENANT|..], p.value);
        assert before.tenant + ([own] + later.value.tenant) == (before.tenant + [own]) + later.value.tenant;
      }
    }
  }

  method SortLines(lines: seq<string>) returns (r: Result<Sorted, EnvError>)
    ensures r == Sort(lines)
  {
    var sorted := Sorted([], []);
    assert lines[0..] == lines;
    FollowingNothing(Sort(lines));
    for k := 0 to |lines|
      invariant Following(sorted, Sort(lines[k..])) == Sort(lines)
    {
      var line := lines[k];
      assert lines[k..] == [line] + lines[k + 1..];
      FollowingLine(sorted, line, lines[k + 1..]);
      if line == "" {
        continue;
      }
      var pair := SplitOnce(line);
      if pair.None? {
        return Err(Malformed(line[..if |line| < 32 then |line| else 32]));
      }
      sorted := WithLine(sorted, pair.value);
    }
    assert lines[|lines|..] == [] && sorted.runtime + [] == sorted.runtime && sorted.tenant + [] == sorted.tenant;
    r := Ok(sorted);
  }

  function Prefixed<T>(before: seq<T>, later: Result<seq<T>, EnvError>): Result<seq<T>, EnvError> {
    if later.Err? then later else Ok(before + later.value)
  }

  lemma PrefixedNothing<T>(later: Result<seq<T>, EnvError>)
    ensures Prefixed([], later) == later
  {
    if later.Ok? {
      assert [] + later.value == later.value;
    }
  }

  lemma PrefixedStep<T>(before: seq<T>, x: T, later: Result<seq<T>, EnvError>)
    ensures Prefixed(before, Prefixed([x], later)) == Prefixed(before + [x], later)
  {
    if later.Ok? {
      assert before + ([x] + later.value) == (before + [x]) + later.value;
    }
  }

  method ReadArguments(runtime: seq<Pair>) returns (r: Result<seq<string>, EnvError>)
    ensures r == ArgumentsFrom(runtime, 0)
  {
    var arguments: seq<string> := [];
    var argument := Named(runtime, ArgKey(0));
    PrefixedNothing(ArgumentsFrom(runtime, 0));
    while argument.Some?
      invariant |arguments| <= MAX_ARGUMENTS && argument == Named(runtime, ArgKey(|arguments|))
      invariant Prefixed(arguments, ArgumentsFrom(runtime, |arguments|)) == ArgumentsFrom(runtime, 0)
      decreases MAX_ARGUMENTS - |arguments|, argument.Some?
    {
      if |arguments| == MAX_ARGUMENTS {
        return Err(TooManyArguments);
      }
      PrefixedStep(arguments, argument.value, ArgumentsFrom(runtime, |arguments| + 1));
      arguments := arguments + [argument.value];
      argument := Named(runtime, ArgKey(|arguments|));
    }
    assert arguments + [] == arguments;
    r := Ok(arguments);
  }

  method ExpandVariables(tenant: seq<Pair>, lookup: R.Lookup) returns (r: Result<seq<Pair>, EnvError>)
    ensures r == ExpandAll(tenant, lookup)
  {
    var environment: seq<Pair> := [];
    assert tenant[0..] == tenant;
    PrefixedNothing(ExpandAll(tenant, lookup));
    for k := 0 to |tenant|
      invariant Prefixed(environment, ExpandAll(tenant[k..], lookup)) == ExpandAll(tenant, lookup)
    {
      assert tenant[k..][0] == tenant[k] && tenant[k..][1..] == tenant[k + 1..];
      var value := R.ExpandInto(tenant[k].value, lookup);
      R.ExpandIsScan(tenant[k].value, lookup);
      if value.Err? {
        return Err(UnknownReference(tenant[k].key, value.error));
      }
      var p := Pair(tenant[k].key, value.value);
      PrefixedStep(environment, p, ExpandAll(tenant[k + 1..], lookup));
      environment := environment + [p];
    }
    assert tenant[|tenant|..] == [] && environment + [] == environment;
    r := Ok(environment);
  }

  /** The reader as it runs, loop by loop. */
  method Read<F>(float: Float<F>, text: string) returns (r: Result<Config<F>, EnvError>)
    ensures r == Parse(float, text)
  {
    var lines := SortLines(LinesOf(text));
    if lines.Err? {
      return Err(lines.error);
    }
    var runtime, tenant := lines.value.runtime, lines.value.tenant;
    var dns := Required(runtime, Key("DNS"));
    if dns.Err? {
      return Err(dns.error);
    }
    var arguments := ReadArguments(runtime);
    if arguments.Err? {
      return Err(arguments.error);
    }
    if CountArguments(runtime) != |arguments.value| {
      return Err(Malformed(ArgKey(|arguments.value|)));
    }
    if |tenant| > MAX_VARIABLES {
      return Err(TooManyVariables);
    }
    var environment := ExpandVariables(tenant, Offered(runtime));
    if environment.Err? {
      return Err(environment.error);
    }
    r := ParseScalars(float, runtime, Nameservers(dns.value), arguments.value, environment.value);
  }

  // The lines come back as they were written.

  ghost predicate RuntimeKey(key: string) {
    StartsWith(key, R.PREFIX) && '=' !in key && !Breaks(key)
  }

  ghost predicate Writable(p: Pair) {
    '=' !in p.key && !Breaks(p.key) && !Breaks(p.value)
  }

  lemma LineUnbroken(p: Pair)
    requires Writable(p)
    ensures !Breaks(Line(p)) && Line(p) != ""
  {
    var line := Line(p);
    forall c | c in line ensures c in p.key || c in p.value || c == '=' {
    }
  }

  lemma {:induction false} SortRuntime(pairs: seq<Pair>, rest: seq<string>)
    requires forall i :: 0 <= i < |pairs| ==> Writable(pairs[i]) && RuntimeKey(pairs[i].key)
    ensures Sort(LinesFor(pairs) + rest) ==
            if Sort(rest).Ok? then Ok(Sort(rest).value.(runtime := pairs + Sort(rest).value.runtime)) else Sort(rest)
  {
    var lines := LinesFor(pairs) + rest;
    if pairs == [] {
      assert lines == rest;
      if Sort(rest).Ok? { assert pairs + Sort(rest).value.runtime == Sort(rest).value.runtime; }
    } else {
      assert lines[0] == Line(pairs[0]) && lines[1..] == LinesFor(pairs[1..]) + rest;
      SortRuntime(pairs[1..], rest);
      LineUnbroken(pairs[0]);
      SplitLine(pairs[0]);
      if Sort(rest).Ok? {
        assert [pairs[0]] + (pairs[1..] + Sort(rest).value.runtime) == pairs + Sort(rest).value.runtime;
      }
    }
  }

  lemma {:induction false} SortTenant(environment: seq<Pair>)
    requires forall i :: 0 <= i < |environment| ==> Writable(environment[i])
    ensures Sort(LinesFor(TenantLines(environment))) == Ok(Sorted([], environment))
  {
    if environment != [] {
      var p := Pair(TENANT + environment[0].key, environment[0].value);
      var lines := LinesFor(TenantLines(environment));
      assert TenantLines(environment)[1..] == TenantLines(environment[1..]);
      assert lines[0] == Line(p) && lines[1..] == LinesFor(TenantLines(environment[1..]));
      SortTenant(environment[1..]);
      TenantKey(environment[0].key);
      LineUnbroken(p);
      SplitLine(p);
      assert p.key[|TENANT|..] == environment[0].key;
      assert [environment[0]] + environment[1..] == environment;
    }
  }

  lemma TenantKey(name: string)
    requires '=' !in name && !Breaks(name)
    ensures
      var key := TENANT + name;
      '=' !in key && !Breaks(key) && StartsWith(key, TENANT) && !StartsWith(key, R.PREFIX)
  {
    var key := TENANT + name;
    assert key[..|TENANT|] == TENANT;
    forall c | c in key ensures c in TENANT || c in name {
    }
    assert key[0] == 'E' && R.PREFIX[0] == 'N';
  }

  // Looking keys up.

  lemma {:induction false} NamedConcat(a: seq<Pair>, b: seq<Pair>, key: string)
    ensures Named(a + b, key) == if Named(a, key).Some? then Named(a, key) else Named(b, key)
    decreases |a|
  {
    if a == [] {
      assert a + b == b;
    } else {
      assert (a + b)[1..] == a[1..] + b;
      NamedConcat(a[1..], b, key);
    }
  }

  lemma {:induction false} NamedAt(pairs: seq<Pair>, i: nat)
    requires i < |pairs| && forall j :: 0 <= j < i ==> pairs[j].key != pairs[i].key
    ensures Named(pairs, pairs[i].key) == Some(pairs[i].value)
    decreases i
  {
    if i > 0 {
      assert forall j :: 0 <= j < |pairs[1..]| ==> pairs[1..][j] == pairs[j + 1];
      NamedAt(pairs[1..], i - 1);
    }
  }

  lemma {:induction false} NamedNone(pairs: seq<Pair>, key: string)
    requires forall j :: 0 <= j < |pairs| ==> pairs[j].key != key
    ensures Named(pairs, key) == None
  {
    if pairs != [] {
      NamedNone(pairs[1..], key);
    }
  }

  /** The letter after the prefix, with the length, tells the fixed keys apart; arguments alone have an 'A'. */
  lemma ArgKeyShape(k: nat)
    ensures |ArgKey(k)| > 11 && ArgKey(k)[..|ARG|] == ARG && ArgKey(k)[7] == 'A'
    ensures RuntimeKey(ArgKey(k))
  {
    var key := ArgKey(k);
    NumberRoundTrip(k);
    assert key[7] == ARG[7];
    assert key[..|R.PREFIX|] == ARG[..|R.PREFIX|] == R.PREFIX;
    forall c | c in key ensures c in ARG || c in Digits(k) {
    }
  }

  lemma ArgKeysDistinct(j: nat, k: nat)
    requires ArgKey(j) == ArgKey(k)
    ensures j == k
  {
    assert ArgKey(j)[|ARG|..] == Digits(j) && ArgKey(k)[|ARG|..] == Digits(k);
    DigitsRoundTrip(j);
    DigitsRoundTrip(k);
  }

  lemma {:induction false} ArgPairsAt(args: seq<string>, from: nat, i: nat)
    requires from <= i < |args|
    ensures |ArgPairs(args, from)| == |args| - from
    ensures ArgPairs(args, from)[i - from] == Pair(ArgKey(i), args[i])
    decreases |args| - from
  {
    if from < i {
      ArgPairsAt(args, from + 1, i);
    } else if from + 1 < |args| {
      ArgPairsAt(args, from + 1, from + 1);
    }
  }

  lemma ArgPairsShape(args: seq<string>)
    ensures |ArgPairs(args, 0)| == |args|
    ensures forall i :: 0 <= i < |args| ==> ArgPairs(args, 0)[i] == Pair(ArgKey(i), args[i])
  {
    if args != [] {
      ArgPairsAt(args, 0, 0);
    }
    forall i | 0 <= i < |args| ensures ArgPairs(args, 0)[i] == Pair(ArgKey(i), args[i]) {
      ArgPairsAt(args, 0, i);
    }
  }

  predicate FixedKey(key: string) {
    |key| > 7 && key[7] != 'A'
  }

  lemma NoArgNamed(args: seq<string>, key: string)
    requires FixedKey(key)
    ensures Named(ArgPairs(args, 0), key) == None
  {
    ArgPairsShape(args);
    var pairs := ArgPairs(args, 0);
    forall j | 0 <= j < |pairs| ensures pairs[j].key != key {
      ArgKeyShape(j);
    }
    NamedNone(pairs, key);
  }

  /** Letters and underscores only, and no 'A' to begin with: neither breaks a line nor splits one. */
  predicate Plain(name: string, length: nat, letter: char) {
    |name| == length && length > 0 && name[0] == letter && forall i :: 0 <= i < |name| ==> name[i] > '='
  }

  lemma Names()
    ensures Plain("HTTP_PORT", 9, 'H') && Plain("LAYERS", 6, 'L') && Plain("PROGRAM", 7, 'P') && Plain("CWD", 3, 'C')
    ensures Plain("HOSTNAME", 8, 'H') && Plain("MAX_RESTARTS", 12, 'M') && Plain("INITIAL_BACKOFF_MS", 18, 'I')
    ensures Plain("MAX_BACKOFF_MS", 14, 'M') && Plain("BACKOFF_FACTOR", 14, 'B') && Plain("RESET_AFTER_MS", 14, 'R')
    ensures Plain("DNS", 3, 'D')
  {
  }

  lemma PlainKey(name: string, length: nat, letter: char)
    requires Plain(name, length, letter) && letter != 'A'
    ensures FixedKey(Key(name)) && RuntimeKey(Key(name)) && |Key(name)| == 7 + length && Key(name)[7] == letter
  {
    var key := Key(name);
    assert key[..|R.PREFIX|] == R.PREFIX;
    forall c | c in key ensures c > '=' {
      assert forall i :: 0 <= i < |R.PREFIX| ==> R.PREFIX[i] > '=';
    }
  }

  ghost predicate KeyIs(key: string, length: nat, letter: char) {
    |key| == 7 + length && length > 0 && key[7] == letter && FixedKey(key) && RuntimeKey(key)
  }

  lemma Keys()
    ensures KeyIs(Key("HTTP_PORT"), 9, 'H') && KeyIs(Key("LAYERS"), 6, 'L') && KeyIs(Key("PROGRAM"), 7, 'P')
        && KeyIs(Key("CWD"), 3, 'C')
    ensures KeyIs(Key("HOSTNAME"), 8, 'H') && KeyIs(Key("MAX_RESTARTS"), 12, 'M')
        && KeyIs(Key("INITIAL_BACKOFF_MS"), 18, 'I')
    ensures KeyIs(Key("MAX_BACKOFF_MS"), 14, 'M') && KeyIs(Key("BACKOFF_FACTOR"), 14, 'B')
        && KeyIs(Key("RESET_AFTER_MS"), 14, 'R')
    ensures KeyIs(Key("DNS"), 3, 'D')
  {
    Names();
    PlainKey("HTTP_PORT", 9, 'H');
    PlainKey("LAYERS", 6, 'L');
    PlainKey("PROGRAM", 7, 'P');
    PlainKey("CWD", 3, 'C');
    PlainKey("HOSTNAME", 8, 'H');
    PlainKey("MAX_RESTARTS", 12, 'M');
    PlainKey("INITIAL_BACKOFF_MS", 18, 'I');
    PlainKey("MAX_BACKOFF_MS", 14, 'M');
    PlainKey("BACKOFF_FACTOR", 14, 'B');
    PlainKey("RESET_AFTER_MS", 14, 'R');
    PlainKey("DNS", 3, 'D');
  }

  /** How long the key at each place is beyond the prefix, and its first letter there. */
  function ShapeAt(i: nat): (nat, char)
    requires i < 11
  {
    [(9, 'H'), (6, 'L'), (7, 'P'), (3, 'C'), (8, 'H'), (12, 'M'), (18, 'I'), (14, 'M'), (14, 'B'), (14, 'R'),
        (3, 'D')][i]
  }

  /** With the hostname left out, the places after it move up by one. */
  function Place(c: Content, i: nat): nat {
    if PlatformHostname(c.hostnames).Some? || i < 4 then i else i + 1
  }

  lemma FixedShapes(c: Content)
    ensures |Fixed(c)| == if PlatformHostname(c.hostnames).Some? then 11 else 10
    ensures forall i :: 0 <= i < |Fixed(c)| ==> KeyIs(Fixed(c)[i].key, ShapeAt(Place(c, i)).0, ShapeAt(Place(c, i)).1)
  {
    Keys();
  }

  lemma FixedKeysAre(c: Content)
    ensures forall i :: 0 <= i < |Fixed(c)| ==> FixedKey(Fixed(c)[i].key) && RuntimeKey(Fixed(c)[i].key)
    ensures forall i, j :: 0 <= i < j < |Fixed(c)| ==> Fixed(c)[i].key != Fixed(c)[j].key
  {
    FixedShapes(c);
    forall i, j | 0 <= i < j < |Fixed(c)| ensures Fixed(c)[i].key != Fixed(c)[j].key {
      var m, n := Place(c, i), Place(c, j);
      assert KeyIs(Fixed(c)[i].key, ShapeAt(m).0, ShapeAt(m).1) && KeyIs(Fixed(c)[j].key, ShapeAt(n).0, ShapeAt(n).1);
      assert ShapeAt(m) != ShapeAt(n);
    }
  }

  lemma FixedNamed(c: Content, i: nat)
    requires i < |Fixed(c)|
    ensures Named(Runtime(c), Fixed(c)[i].key) == Some(Fixed(c)[i].value)
  {
    FixedKeysAre(c);
    NamedAt(Fixed(c), i);
    NamedConcat(Fixed(c), ArgPairs(c.args, 0), Fixed(c)[i].key);
  }

  /** What a reference in the environment stands for. */
  function ValueOf(c: Content): R.Lookup {
    (name: string) =>
      if name == Key("HOSTNAME") then PlatformHostname(c.hostnames)
      else if name == Key("HTTP_PORT") then Some(Digits(c.httpPort))
      else None
  }

  lemma HostnameNamed(c: Content)
    ensures Named(Runtime(c), Key("HOSTNAME")) == PlatformHostname(c.hostnames)
  {
    if PlatformHostname(c.hostnames).Some? {
      FixedNamed(c, 4);
    } else {
      Keys();
      FixedShapes(c);
      forall j | 0 <= j < |Fixed(c)| ensures Fixed(c)[j].key != Key("HOSTNAME") {
        assert KeyIs(Fixed(c)[j].key, ShapeAt(Place(c, j)).0, ShapeAt(Place(c, j)).1);
      }
      NamedNone(Fixed(c), Key("HOSTNAME"));
      NoArgNamed(c.args, Key("HOSTNAME"));
      NamedConcat(Fixed(c), ArgPairs(c.args, 0), Key("HOSTNAME"));
    }
  }

  lemma OfferedIsValueOf(c: Content, name: string)
    ensures Offered(Runtime(c))(name) == ValueOf(c)(name)
  {
    HostnameNamed(c);
    FixedNamed(c, 0);
  }

  // Arguments.

  lemma ArgNamed(c: Content, k: nat)
    ensures Named(Runtime(c), ArgKey(k)) == if k < |c.args| then Some(c.args[k]) else None
  {
    FixedKeysAre(c);
    ArgKeyShape(k);
    NamedNone(Fixed(c), ArgKey(k));
    NamedConcat(Fixed(c), ArgPairs(c.args, 0), ArgKey(k));
    ArgPairsShape(c.args);
    var pairs := ArgPairs(c.args, 0);
    forall j | 0 <= j < |pairs| && j != k ensures pairs[j].key != ArgKey(k) {
      if ArgKey(j) == ArgKey(k) {
        ArgKeysDistinct(j, k);
      }
    }
    if k < |c.args| {
      NamedAt(pairs, k);
    } else {
      NamedNone(pairs, ArgKey(k));
    }
  }

  lemma {:induction false} ArgumentsBack(c: Content, k: nat)
    requires k <= |c.args| <= MAX_ARGUMENTS
    ensures ArgumentsFrom(Runtime(c), k) == Ok(c.args[k..])
    decreases |c.args| - k
  {
    ArgNamed(c, k);
    if k < |c.args| {
      ArgumentsBack(c, k + 1);
      assert [c.args[k]] + c.args[k + 1..] == c.args[k..];
    } else {
      assert c.args[k..] == [];
    }
  }

  lemma {:induction false} CountConcat(a: seq<Pair>, b: seq<Pair>)
    ensures CountArguments(a + b) == CountArguments(a) + CountArguments(b)
    decreases |a|
  {
    if a == [] {
      assert a + b == b;
    } else {
      assert (a + b)[1..] == a[1..] + b;
      CountConcat(a[1..], b);
    }
  }

  lemma {:induction false} CountNone(pairs: seq<Pair>)
    requires forall i :: 0 <= i < |pairs| ==> FixedKey(pairs[i].key)
    ensures CountArguments(pairs) == 0
  {
    if pairs != [] {
      assert ARG[7] == 'A';
      CountNone(pairs[1..]);
    }
  }

  lemma {:induction false} CountAll(args: seq<string>, from: nat)
    requires from <= |args|
    ensures CountArguments(ArgPairs(args, from)) == |args| - from
    decreases |args| - from
  {
    if from < |args| {
      ArgKeyShape(from);
      CountAll(args, from + 1);
      assert ArgPairs(args, from)[1..] == ArgPairs(args, from + 1);
    }
  }

  lemma CountBack(c: Content)
    ensures CountArguments(Runtime(c)) == |c.args|
  {
    FixedKeysAre(c);
    CountNone(Fixed(c));
    CountAll(c.args, 0);
    CountConcat(Fixed(c), ArgPairs(c.args, 0));
  }

  // Nameservers.

  lemma TwoServers(a: string, b: string)
    requires a != "" && b != "" && ',' !in a && ',' !in b
    ensures Nameservers(a + "," + b) == [a, b]
  {
    SplitBoth(a, ',', b, IsComma);
    SplitFree(a, IsComma);
    SplitFree(b, IsComma);
    assert [b][1..] == [] && [a, b][1..] == [b];
    assert NonEmpty([b]) == [b];
  }

  lemma NameserversBack()
    ensures Nameservers(DNS) == [FIRST_SERVER, SECOND_SERVER]
    ensures !Breaks(DNS)
  {
    assert ',' !in FIRST_SERVER && ',' !in SECOND_SERVER;
    TwoServers(FIRST_SERVER, SECOND_SERVER);
    assert !Breaks(FIRST_SERVER) && !Breaks(SECOND_SERVER);
    forall c | c in DNS ensures c in FIRST_SERVER || c in SECOND_SERVER || c == ',' {
    }
  }

  // The environment.

  lemma {:induction false} ScanAgrees(v: string, i: nat, a: R.Lookup, b: R.Lookup)
    requires i <= |v| && forall name :: a(name) == b(name)
    ensures R.Scan(v, i, a) == R.Scan(v, i, b)
    decreases |v| - i
  {
    if i < |v| {
      var end := R.ReferenceAt(v, i);
      ScanAgrees(v, if end.Some? then end.value else i + 1, a, b);
    }
  }

  /** Every complete reference in the environment names a value the guest has. */
  predicate Resolvable(c: Content) {
    forall i :: 0 <= i < |c.environment| ==> R.AllKnown(c.environment[i].value, 0, ValueOf(c))
  }

  function Expanded(environment: seq<Pair>, lookup: R.Lookup): seq<Pair>
    requires forall i :: 0 <= i < |environment| ==> R.AllKnown(environment[i].value, 0, lookup)
  {
    if environment == [] then []
    else
      R.ScanSucceeds(environment[0].value, 0, lookup);
      [Pair(environment[0].key, R.Scan(environment[0].value, 0, lookup).value)] + Expanded(environment[1..], lookup)
  }

  lemma {:induction false} ExpandAllBack(environment: seq<Pair>, offered: R.Lookup, lookup: R.Lookup)
    requires forall name :: offered(name) == lookup(name)
    ensures ExpandAll(environment, offered).Ok? <==> forall i :: 0 <= i < |environment| ==>
        R.AllKnown(environment[i].value, 0, lookup)
    ensures ExpandAll(environment, offered).Ok? ==>
        ExpandAll(environment, offered).value == Expanded(environment, lookup)
  {
    if environment != [] {
      var v, rest := environment[0].value, environment[1..];
      R.ExpandIsScan(v, offered);
      ScanAgrees(v, 0, offered, lookup);
      R.ScanSucceeds(v, 0, lookup);
      ExpandAllBack(rest, offered, lookup);
      assert forall i :: 0 < i < |environment| ==> environment[i] == rest[i - 1];
      assert forall i :: 0 <= i < |rest| ==> rest[i] == environment[i + 1];
    }
  }

  // The round trip.

  lemma {:induction false} HostnameUnbroken(hostnames: seq<Hostname>)
    requires forall i :: 0 <= i < |hostnames| ==> !Breaks(hostnames[i].name)
    ensures PlatformHostname(hostnames).Some? ==> !Breaks(PlatformHostname(hostnames).value)
  {
    if hostnames != [] {
      assert !Breaks(hostnames[0].name);
      HostnameUnbroken(hostnames[1..]);
    }
  }

  ghost predicate Unbroken(values: seq<string>) {
    forall i :: 0 <= i < |values| ==> !Breaks(values[i])
  }

  lemma UnbrokenConcat(a: seq<string>, b: seq<string>)
    requires Unbroken(a) && Unbroken(b)
    ensures Unbroken(a + b)
  {
  }

  lemma HeadUnbroken(c: Content)
    requires Typed(c)
    ensures Unbroken([Digits(c.httpPort), Digits(c.layers), c.program, c.workingDirectory])
  {
    NumberRoundTrip(c.httpPort);
    NumberRoundTrip(c.layers);
  }

  lemma PolicyUnbroken(c: Content)
    requires Typed(c)
    ensures Unbroken(PolicyValues(c))
  {
    NumberRoundTrip(c.maxRestarts);
    NumberRoundTrip(c.initialBackoffMs);
    NumberRoundTrip(c.maxBackoffMs);
    NumberRoundTrip(c.resetAfterMs);
    NameserversBack();
  }

  lemma ValuesUnbroken(c: Content)
    requires Typed(c)
    ensures Unbroken(Values(c))
  {
    HeadUnbroken(c);
    HostnameUnbroken(c.hostnames);
    PolicyUnbroken(c);
    var name := PlatformHostname(c.hostnames);
    var head := [Digits(c.httpPort), Digits(c.layers), c.program, c.workingDirectory];
    var hostname := if name.Some? then [name.value] else [];
    UnbrokenConcat(head, hostname);
    UnbrokenConcat(head + hostname, PolicyValues(c));
  }

  lemma FixedValuesUnbroken(c: Content)
    requires Typed(c)
    ensures forall i :: 0 <= i < |Fixed(c)| ==> !Breaks(Fixed(c)[i].value)
  {
    FixedValues(c);
    ValuesUnbroken(c);
  }

  /** The written values, without their keys. */
  function Values(c: Content): seq<string> {
    [Digits(c.httpPort), Digits(c.layers), c.program, c.workingDirectory]
    + (if PlatformHostname(c.hostnames).Some? then [PlatformHostname(c.hostnames).value] else [])
    + PolicyValues(c)
  }

  function PolicyValues(c: Content): seq<string> {
    [Digits(c.maxRestarts), Digits(c.initialBackoffMs), Digits(c.maxBackoffMs), c.backoffFactor,
        Digits(c.resetAfterMs), DNS]
  }

  lemma FixedValues(c: Content)
    ensures |Values(c)| == |Fixed(c)| && forall i :: 0 <= i < |Fixed(c)| ==> Fixed(c)[i].value == Values(c)[i]
  {
  }

  lemma FixedWritable(c: Content)
    requires Typed(c)
    ensures forall i :: 0 <= i < |Fixed(c)| ==> Writable(Fixed(c)[i]) && RuntimeKey(Fixed(c)[i].key)
  {
    FixedKeysAre(c);
    FixedValuesUnbroken(c);
  }

  lemma RuntimeWritable(c: Content)
    requires Typed(c) && Representable(c)
    ensures forall i :: 0 <= i < |Runtime(c)| ==> Writable(Runtime(c)[i]) && RuntimeKey(Runtime(c)[i].key)
  {
    FixedWritable(c);
    ArgPairsShape(c.args);
    forall i | 0 <= i < |Runtime(c)| ensures Writable(Runtime(c)[i]) && RuntimeKey(Runtime(c)[i].key) {
      if i >= |Fixed(c)| {
        ArgKeyShape(i - |Fixed(c)|);
      }
    }
  }

  lemma {:induction false} LinesUnbroken(pairs: seq<Pair>)
    requires forall i :: 0 <= i < |pairs| ==> Writable(pairs[i])
    ensures forall i :: 0 <= i < |LinesFor(pairs)| ==> !Breaks(LinesFor(pairs)[i])
  {
    if pairs != [] {
      LineUnbroken(pairs[0]);
      LinesUnbroken(pairs[1..]);
    }
  }

  lemma {:induction false} TenantWritable(environment: seq<Pair>)
    requires forall i :: 0 <= i < |environment| ==> Writable(environment[i])
    ensures forall i :: 0 <= i < |TenantLines(environment)| ==> Writable(TenantLines(environment)[i])
  {
    if environment != [] {
      TenantKey(environment[0].key);
      TenantWritable(environment[1..]);
    }
  }

  /** The reader sorts the written lines back into the runtime's and the tenant's. */
  lemma SortBack(c: Content)
    requires Typed(c) && Representable(c)
    ensures Sort(LinesOf(Rendered(c))) == Ok(Sorted(Runtime(c), c.environment))
  {
    var all := Runtime(c) + TenantLines(c.environment);
    RuntimeWritable(c);
    TenantWritable(c.environment);
    LinesUnbroken(all);
    LinesRoundTrip(LinesFor(all));
    LinesForConcat(Runtime(c), TenantLines(c.environment));
    SortTenant(c.environment);
    SortRuntime(Runtime(c), LinesFor(TenantLines(c.environment)));
    assert Runtime(c) + [] == Runtime(c);
  }

  predicate Fits(c: Content) {
    && |c.environment| <= MAX_VARIABLES
    && c.layers < U32 && c.initialBackoffMs < U32 && c.maxBackoffMs < U32 && c.resetAfterMs < U32
  }

  function Expected<F>(float: Float<F>, c: Content): Config<F>
    requires Resolvable(c) && float(c.backoffFactor).Some?
  {
    Config(
      c.httpPort, c.layers, c.program, c.workingDirectory, PlatformHostname(c.hostnames),
      c.maxRestarts, c.initialBackoffMs, c.maxBackoffMs, float(c.backoffFactor).value, c.resetAfterMs,
      [FIRST_SERVER, SECOND_SERVER], c.args, Expanded(c.environment, ValueOf(c)))
  }

  lemma ScalarsBack(c: Content)
    requires Typed(c)
    ensures
      var r := Runtime(c);
      && Number(r, Key("HTTP_PORT")) == Ok(c.httpPort)
      && (Number(r, Key("LAYERS")) == if c.layers < U32 then Ok(c.layers) else Err(Malformed(Key("LAYERS"))))
      && Required(r, Key("PROGRAM")) == Ok(c.program)
      && Required(r, Key("CWD")) == Ok(c.workingDirectory)
      && Required(r, Key("BACKOFF_FACTOR")) == Ok(c.backoffFactor)
      && Required(r, Key("DNS")) == Ok(DNS)
  {
    var h := if PlatformHostname(c.hostnames).Some? then 1 else 0;
    FixedNamed(c, 0);
    FixedNamed(c, 1);
    FixedNamed(c, 2);
    FixedNamed(c, 3);
    FixedNamed(c, 7 + h);
    FixedNamed(c, 9 + h);
    NumberRoundTrip(c.httpPort);
    NumberRoundTrip(c.layers);
  }

  lemma PolicyBack(c: Content)
    requires Typed(c)
    ensures
      var r := Runtime(c);
      && Number(r, Key("MAX_RESTARTS")) == Ok(c.maxRestarts)
      && (Number(r, Key("INITIAL_BACKOFF_MS")) == if c.initialBackoffMs < U32 then Ok(c.initialBackoffMs)
          else Err(Malformed(Key("INITIAL_BACKOFF_MS"))))
      && (Number(r, Key("MAX_BACKOFF_MS")) == if c.maxBackoffMs < U32 then Ok(c.maxBackoffMs)
          else Err(Malformed(Key("MAX_BACKOFF_MS"))))
      && (Number(r, Key("RESET_AFTER_MS")) == if c.resetAfterMs < U32 then Ok(c.resetAfterMs)
          else Err(Malformed(Key("RESET_AFTER_MS"))))
  {
    var h := if PlatformHostname(c.hostnames).Some? then 1 else 0;
    FixedNamed(c, 4 + h);
    FixedNamed(c, 5 + h);
    FixedNamed(c, 6 + h);
    FixedNamed(c, 8 + h);
    NumberRoundTrip(c.maxRestarts);
    NumberRoundTrip(c.initialBackoffMs);
    NumberRoundTrip(c.maxBackoffMs);
    NumberRoundTrip(c.resetAfterMs);
  }

  lemma ListsBack(c: Content)
    requires Typed(c)
    ensures ParseLists(Runtime(c), c.environment).Ok? <==> |c.environment| <= MAX_VARIABLES && Resolvable(c)
    ensures ParseLists(Runtime(c), c.environment).Ok? ==>
              ParseLists(Runtime(c), c.environment).value == (c.args, Expanded(c.environment, ValueOf(c)))
  {
    ArgumentsBack(c, 0);
    assert c.args[0..] == c.args;
    CountBack(c);
    forall name ensures Offered(Runtime(c))(name) == ValueOf(c)(name) {
      OfferedIsValueOf(c, name);
    }
    ExpandAllBack(c.environment, Offered(Runtime(c)), ValueOf(c));
  }

  lemma FiguresBack<F>(
    float: Float<F>, c: Content, nameservers: seq<string>, arguments: seq<string>, environment: seq<Pair>)
    requires Typed(c)
    ensures
      var r := ParseScalars(float, Runtime(c), nameservers, arguments, environment);
      && (r.Ok? <==>
          && c.layers < U32 && c.initialBackoffMs < U32 && c.maxBackoffMs < U32 && c.resetAfterMs < U32
          && float(c.backoffFactor).Some?)
      && (r.Ok? ==> r.value == Config(
            c.httpPort, c.layers, c.program, c.workingDirectory, PlatformHostname(c.hostnames),
            c.maxRestarts, c.initialBackoffMs, c.maxBackoffMs, float(c.backoffFactor).value, c.resetAfterMs,
            nameservers, arguments, environment))
  {
    ScalarsBack(c);
    PolicyBack(c);
    HostnameNamed(c);
  }

  /**
   The guest takes what the host wrote exactly when the variables are few enough, the figures fit,
   the backoff factor's text reads as a number and every complete reference has a value; it then has
   the same scalars, the arguments in order and each variable with exactly its complete references
   replaced.
   */
  lemma RoundTrip<F>(float: Float<F>, c: Content)
    requires Typed(c) && Representable(c)
    ensures Parse(float, Rendered(c)).Ok? <==> Fits(c) && Resolvable(c) && float(c.backoffFactor).Some?
    ensures Parse(float, Rendered(c)).Ok? ==> Parse(float, Rendered(c)).value == Expected(float, c)
  {
    SortBack(c);
    ScalarsBack(c);
    NameserversBack();
    ListsBack(c);
    if ParseLists(Runtime(c), c.environment).Ok? {
      FiguresBack(float, c, [FIRST_SERVER, SECOND_SERVER], c.args, Expanded(c.environment, ValueOf(c)));
    }
  }

  /** The guest asks the two nameservers every host names. */
  lemma NameserversArrive<F>(float: Float<F>, c: Content)
    requires Typed(c) && Representable(c) && Parse(float, Rendered(c)).Ok?
    ensures Parse(float, Rendered(c)).value.nameservers == ["1.1.1.1", "1.0.0.1"]
  {
    RoundTrip(float, c);
  }

  // A variable on its way to the tenant.

  lemma {:induction false} ExpandedAt(environment: seq<Pair>, lookup: R.Lookup, k: nat)
    requires forall i :: 0 <= i < |environment| ==> R.AllKnown(environment[i].value, 0, lookup)
    requires k < |environment|
    ensures |Expanded(environment, lookup)| == |environment|
    ensures
      var p := environment[k];
      R.Scan(p.value, 0, lookup).Ok?
          && Expanded(environment, lookup)[k] == Pair(p.key, R.Scan(p.value, 0, lookup).value)
    decreases |environment|
  {
    R.ScanSucceeds(environment[0].value, 0, lookup);
    if k > 0 {
      ExpandedAt(environment[1..], lookup, k - 1);
    } else if |environment| > 1 {
      ExpandedAt(environment[1..], lookup, 0);
    }
  }

  ghost predicate FirstPlatform(hostnames: seq<Hostname>, i: int, name: string) {
    0 <= i < |hostnames| && hostnames[i] == Hostname(name, true) && forall j :: 0 <= j < i ==> !hostnames[j].platform
  }

  /** The name the platform gives the app is the first of its hostnames that is the platform's. */
  lemma {:induction false} PlatformHostnameIsFirst(hostnames: seq<Hostname>)
    ensures
      match PlatformHostname(hostnames)
      case None => forall i :: 0 <= i < |hostnames| ==> !hostnames[i].platform
      case Some(name) => exists i :: FirstPlatform(hostnames, i, name)
  {
    if hostnames != [] {
      var rest := hostnames[1..];
      assert forall j :: 0 < j < |hostnames| ==> hostnames[j] == rest[j - 1];
      if hostnames[0].platform {
        assert hostnames[0] == Hostname(hostnames[0].name, true);
        assert PlatformHostname(hostnames) == Some(hostnames[0].name);
        assert FirstPlatform(hostnames, 0, hostnames[0].name);
      } else {
        PlatformHostnameIsFirst(rest);
        match PlatformHostname(rest) {
          case None =>
          case Some(name) =>
            assert PlatformHostname(hostnames) == Some(name);
            var i :| FirstPlatform(rest, i, name);
            assert hostnames[i + 1] == rest[i];
            assert FirstPlatform(hostnames, i + 1, name);
        }
      }
    }
  }

  lemma KnownAt(v: string, i: nat, end: nat, lookup: R.Lookup)
    requires R.AllKnown(v, 0, lookup) && R.ReferenceAt(v, i) == Some(end)
    ensures lookup(R.NameAt(v, i, end)).Some?
  {
  }

  lemma KnownExpands(v: string, a: string, name: string, b: string, lookup: R.Lookup)
    requires v == a + "${" + name + "}" + b && '$' !in a && '$' !in b
    requires R.IsRuntimeName(name) && R.AllKnown(v, 0, lookup)
    ensures lookup(name).Some? && R.Scan(v, 0, lookup) == Ok(a + lookup(name).value + b)
  {
    R.ReferenceWithin(v, a, name, b);
    KnownAt(v, |a|, |a| + 3 + |name|, lookup);
    R.ReferenceExpands(v, a, name, b, lookup);
  }

  lemma ReferenceArrives(c: Content, k: nat, a: string, name: string, b: string)
    requires Resolvable(c) && k < |c.environment| && '$' !in a && '$' !in b && R.IsRuntimeName(name)
    requires c.environment[k].value == a + "${" + name + "}" + b
    ensures ValueOf(c)(name).Some?
    ensures R.Scan(c.environment[k].value, 0, ValueOf(c)) == Ok(a + ValueOf(c)(name).value + b)
  {
    var v := c.environment[k].value;
    KnownExpands(v, a, name, b, ValueOf(c));
  }

  lemma PlainArrives(v: string, lookup: R.Lookup)
    requires '$' !in v
    ensures R.Scan(v, 0, lookup) == Ok(v)
  {
    R.ScanPlain(v, 0, |v|, lookup);
    assert v[0..|v|] == v && v + "" == v;
  }

  lemma OfferedNames(c: Content)
    ensures R.IsRuntimeName("NIBRUN_HOSTNAME") && ValueOf(c)("NIBRUN_HOSTNAME") == PlatformHostname(c.hostnames)
    ensures R.IsRuntimeName("NIBRUN_HTTP_PORT") && ValueOf(c)("NIBRUN_HTTP_PORT") == Some(Digits(c.httpPort))
  {
    R.RuntimeName("HOSTNAME");
    R.RuntimeName("HTTP_PORT");
    assert R.PREFIX + "HOSTNAME" == "NIBRUN_HOSTNAME" && R.PREFIX + "HTTP_PORT" == "NIBRUN_HTTP_PORT";
    assert |"NIBRUN_HOSTNAME"| != |"NIBRUN_HTTP_PORT"|;
  }

  /** Each variable arrives under its own name, as the plain reading of its value. */
  lemma VariableArrives<F>(float: Float<F>, c: Content, k: nat)
    requires Typed(c) && Representable(c) && Parse(float, Rendered(c)).Ok? && k < |c.environment|
    ensures Resolvable(c)
    ensures
      var p, arrived := c.environment[k], Parse(float, Rendered(c)).value.environment;
      k < |arrived| && arrived[k].key == p.key && R.Scan(p.value, 0, ValueOf(c)) == Ok(arrived[k].value)
  {
    RoundTrip(float, c);
    ExpandedAt(c.environment, ValueOf(c), k);
  }

  /**
   What the tenant gets: a variable without a dollar sign as it was written, and one that names the
   hostname or the port with that in the reference's place.
   */
  lemma PlainVariableArrives<F>(float: Float<F>, c: Content, k: nat)
    requires Typed(c) && Representable(c) && Parse(float, Rendered(c)).Ok? && k < |c.environment|
    requires '$' !in c.environment[k].value
    ensures
      var arrived := Parse(float, Rendered(c)).value.environment;
      k < |arrived| && arrived[k] == c.environment[k]
  {
    VariableArrives(float, c, k);
    PlainArrives(c.environment[k].value, ValueOf(c));
  }

  lemma HostnameArrives<F>(float: Float<F>, c: Content, k: nat, a: string, b: string)
    requires Typed(c) && Representable(c) && Parse(float, Rendered(c)).Ok? && k < |c.environment|
    requires c.environment[k].value == a + "${" + "NIBRUN_HOSTNAME" + "}" + b && '$' !in a && '$' !in b
    ensures
      var name, arrived := PlatformHostname(c.hostnames), Parse(float, Rendered(c)).value.environment;
      name.Some? && k < |arrived| && arrived[k] == Pair(c.environment[k].key, a + name.value + b)
  {
    VariableArrives(float, c, k);
    OfferedNames(c);
    ReferenceArrives(c, k, a, "NIBRUN_HOSTNAME", b);
  }

  lemma PortArrives<F>(float: Float<F>, c: Content, k: nat, a: string, b: string)
    requires Typed(c) && Representable(c) && Parse(float, Rendered(c)).Ok? && k < |c.environment|
    requires c.environment[k].value == a + "${" + "NIBRUN_HTTP_PORT" + "}" + b && '$' !in a && '$' !in b
    ensures
      var arrived := Parse(float, Rendered(c)).value.environment;
      k < |arrived| && arrived[k] == Pair(c.environment[k].key, a + Digits(c.httpPort) + b)
  {
    VariableArrives(float, c, k);
    OfferedNames(c);
    ReferenceArrives(c, k, a, "NIBRUN_HTTP_PORT", b);
  }
}
