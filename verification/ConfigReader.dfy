/**
 The guest's reader of its configuration on any file, whoever wrote it: which lines count, which files
 are taken and which are refused, and with what error.
 */
module ConfigReader {
  import opened Basics
  import opened InstanceEnv
  import opened Results
  import R = References

  // Lines.

  /** A line ends at its newline, and a carriage return just before that is not part of it. */
  lemma LinesExactly(line: string, rest: string)
    requires '\n' !in line
    ensures LinesOf(line + "\n" + rest)
         == [if line != "" && line[|line| - 1] == '\r' then line[..|line| - 1] else line] + LinesOf(rest)
    ensures LinesOf(line) == if line == "" then [] else [line]
  {
    FindAt(line, rest, '\n');
    var text := line + ['\n'] + rest;
    assert text == line + "\n" + rest && text[..|line|] == line && text[|line| + 1..] == rest;
  }

  predicate Readable(line: string) {
    line == "" || '=' in line
  }

  lemma SplitOnceExactly(line: string)
    ensures SplitOnce(line).Some? <==> '=' in line
  {
    var k := Find(line, '=');
    if '=' in line {
      var i :| 0 <= i < |line| && line[i] == '=';
      assert k <= i;
    }
  }

  /** A file with a line that is no KEY=VALUE is refused. */
  lemma {:induction false} SortExactly(lines: seq<string>)
    ensures Sort(lines).Ok? <==> forall i :: 0 <= i < |lines| ==> Readable(lines[i])
    decreases |lines|
  {
    if lines != [] {
      SplitOnceExactly(lines[0]);
      SortExactly(lines[1..]);
      assert forall i :: 0 < i < |lines| ==> lines[i] == lines[1..][i - 1];
    }
  }

  /** The refusal names the first such line, by at most 32 characters of it. */
  lemma {:induction false} RefusedLine(lines: seq<string>) returns (k: nat)
    requires Sort(lines).Err?
    ensures k < |lines| && !Readable(lines[k]) && forall i :: 0 <= i < k ==> Readable(lines[i])
    ensures Sort(lines).error == Malformed(if |lines[k]| < 32 then lines[k] else lines[k][..32])
    decreases |lines|
  {
    k := 0;
    SplitOnceExactly(lines[0]);
    if Readable(lines[0]) {
      var later := RefusedLine(lines[1..]);
      k := later + 1;
      assert forall i :: 0 < i < |lines| ==> lines[i] == lines[1..][i - 1];
    } else {
      assert lines[0][..|lines[0]|] == lines[0];
    }
  }

  /** What one more line adds: a value of the runtime's, a variable of the tenant's, or nothing. */
  lemma LineExactly(lines: seq<string>, key: string, value: string)
    requires Sort(lines).Ok? && '=' !in key
    ensures
      var before, after := Sort(lines).value, Sort(lines + [key + "=" + value]);
      after == Ok(
        if StartsWith(key, "NIBRUN_") then before.(runtime := before.runtime + [Pair(key, value)])
        else if StartsWith(key, "ENV_") then before.(tenant := before.tenant + [Pair(key[4..], value)])
        else before)
  {
    SplitLine(Pair(key, value));
    SortAppend(lines, Line(Pair(key, value)));
  }

  lemma {:induction false} SortAppend(lines: seq<string>, line: string)
    requires Sort(lines).Ok? && line != "" && SplitOnce(line).Some?
    ensures Sort(lines + [line]) == Ok(WithLine(Sort(lines).value, SplitOnce(line).value))
    decreases |lines|
  {
    if lines == [] {
      assert [line][1..] == [] && lines + [line] == [line];
      assert forall p: Pair :: [p] + [] == [p] == [] + [p];
    } else {
      assert (lines + [line])[0] == lines[0] && (lines + [line])[1..] == lines[1..] + [line];
      SortAppend(lines[1..], line);
      if lines[0] != "" {
        var rest, p, q := Sort(lines[1..]).value, SplitOnce(lines[0]).value, SplitOnce(line).value;
        AddedAround(p, rest, q);
      }
    }
  }

  /** What a line adds before others and what one adds after them do not meet. */
  lemma AddedAround(p: Pair, rest: Sorted, q: Pair)
    ensures WithFirst(p, WithLine(rest, q)) == WithLine(WithFirst(p, rest), q)
  {
    Associates([p], rest.runtime, [q]);
    if StartsWith(p.key, TENANT) && StartsWith(q.key, TENANT) {
      Associates([Pair(p.key[|TENANT|..], p.value)], rest.tenant, [Pair(q.key[|TENANT|..], q.value)]);
    }
  }

  function WithFirst(p: Pair, rest: Sorted): Sorted {
    if StartsWith(p.key, R.PREFIX) then rest.(runtime := [p] + rest.runtime)
    else if StartsWith(p.key, TENANT) then rest.(tenant := [Pair(p.key[|TENANT|..], p.value)] + rest.tenant)
    else rest
  }

  // Values.

  /** A key stands for its first value. */
  lemma {:induction false} NamedExactly(runtime: seq<Pair>, key: string)
    ensures Named(runtime, key).None? <==> forall i :: 0 <= i < |runtime| ==> runtime[i].key != key
    ensures Named(runtime, key).Some? ==>
        exists k :: 0 <= k < |runtime| && runtime[k] == Pair(key, Named(runtime, key).value)
            && forall i :: 0 <= i < k ==> runtime[i].key != key
    decreases |runtime|
  {
    if runtime != [] && runtime[0].key != key {
      var rest := runtime[1..];
      NamedExactly(rest, key);
      assert forall i :: 0 < i < |runtime| ==> runtime[i] == rest[i - 1];
      if Named(rest, key).Some? {
        var k :| 0 <= k < |rest| && rest[k] == Pair(key, Named(rest, key).value)
          && forall i :: 0 <= i < k ==> rest[i].key != key;
        assert runtime[k + 1] == Pair(key, Named(runtime, key).value);
      }
    }
  }

  predicate IsDigits(s: string) {
    s != "" && forall i :: 0 <= i < |s| ==> '0' <= s[i] <= '9'
  }

  /** Digits are read as the decimal number they write: each one adds its worth to ten times those before. */
  lemma {:induction false} DigitsExactly(s: string)
    ensures DigitsValue(s).Some? <==> IsDigits(s)
    ensures IsDigits(s) ==>
        DigitsValue(s).value ==
        (if |s| == 1 then 0 else 10 * DigitsValue(s[..|s| - 1]).value) + (s[|s| - 1] as nat - '0' as nat)
    decreases |s|
  {
    if |s| > 1 {
      var high := s[..|s| - 1];
      DigitsExactly(high);
      assert IsDigits(s) ==> IsDigits(high);
      assert DigitsValue(s).Some? ==> forall i :: 0 <= i < |high| ==> s[i] == high[i];
    }
  }

  /** A figure is digits, a plus sign before them or not, that make a number of 32 bits. */
  lemma FigureExactly(s: string)
    ensures
      var digits := if |s| > 1 && s[0] == '+' then s[1..] else s;
      if !IsDigits(digits) then ParseU32(s) == None
      else
        && DigitsValue(digits).Some?
        && ParseU32(s) == if DigitsValue(digits).value < 0x1_0000_0000 then DigitsValue(digits) else None
  {
    DigitsExactly(if |s| > 1 && s[0] == '+' then s[1..] else s);
  }

  // Arguments.

  /** The arguments from `k` on are these, numbered one after another. */
  ghost predicate Numbered(runtime: seq<Pair>, k: nat, args: seq<string>) {
    forall i :: 0 <= i < |args| ==> Named(runtime, ArgKey(k + i)) == Some(args[i])
  }

  lemma NumberedOn(runtime: seq<Pair>, k: nat, argument: string, rest: seq<string>)
    requires Named(runtime, ArgKey(k)) == Some(argument) && Numbered(runtime, k + 1, rest)
    ensures Numbered(runtime, k, [argument] + rest)
  {
    var all := [argument] + rest;
    forall i | 0 <= i < |all| ensures Named(runtime, ArgKey(k + i)) == Some(all[i]) {
      if i > 0 {
        assert Named(runtime, ArgKey(k + 1 + (i - 1))) == Some(rest[i - 1]);
      }
    }
  }

  /** The arguments are those numbered from 0 without a gap, and there may be 64 of them. */
  lemma {:induction false} ArgumentsExactly(runtime: seq<Pair>, k: nat)
    requires k <= 64
    ensures
      var r := ArgumentsFrom(runtime, k);
      if r.Ok? then
        && k + |r.value| <= 64 && Numbered(runtime, k, r.value)
        && Named(runtime, ArgKey(k + |r.value|)) == None
      else r.error == TooManyArguments && exists args :: k + |args| == 65 && Numbered(runtime, k, args)
    decreases 64 - k
  {
    var argument := Named(runtime, ArgKey(k));
    if argument.None? {
    } else if k == 64 {
      assert Numbered(runtime, k, [argument.value]);
    } else {
      ArgumentsExactly(runtime, k + 1);
      var rest := ArgumentsFrom(runtime, k + 1);
      if rest.Ok? {
        NumberedOn(runtime, k, argument.value, rest.value);
      } else {
        var args :| k + 1 + |args| == 65 && Numbered(runtime, k + 1, args);
        NumberedOn(runtime, k, argument.value, args);
      }
    }
  }

  /** What is counted against them are the keys that start as an argument's does. */
  lemma CountExactly(runtime: seq<Pair>, p: Pair)
    ensures CountArguments([]) == 0
    ensures CountArguments([p] + runtime)
         == CountArguments(runtime) + if StartsWith(p.key, "NIBRUN_ARG_") then 1 else 0
  {
    assert ([p] + runtime)[1..] == runtime;
    assert ARG == "NIBRUN_ARG_";
  }

  // Nameservers.

  /** Empty ones are left out, and at most three are taken. */
  lemma NameserversExactly(text: string)
    ensures
      var entries := NonEmpty(SplitBy(text, c => c == ','));
      Nameservers(text) == if |entries| > 3 then entries[..3] else entries
  {
    SplitSame(text, IsComma, c => c == ',');
  }

  lemma {:induction false} NonEmptyExactly(before: seq<string>, part: string)
    ensures NonEmpty(before + [part]) == NonEmpty(before) + if part == "" then [] else [part]
    decreases |before|
  {
    if before == [] {
      assert before + [part] == [part] && [part][1..] == [];
    } else {
      assert (before + [part])[0] == before[0] && (before + [part])[1..] == before[1..] + [part];
      NonEmptyExactly(before[1..], part);
    }
  }

  // Variables.

  /** Every variable is expanded, in order, if all their complete references are offered. */
  lemma {:induction false} VariablesExactly(tenant: seq<Pair>, lookup: R.Lookup)
    ensures ExpandAll(tenant, lookup).Ok? <==>
            forall i :: 0 <= i < |tenant| ==> R.AllKnown(tenant[i].value, 0, lookup)
    ensures ExpandAll(tenant, lookup).Ok? ==>
        var all := ExpandAll(tenant, lookup).value;
        && |all| == |tenant|
        && forall i :: 0 <= i < |all| ==>
             all[i].key == tenant[i].key && R.Scan(tenant[i].value, 0, lookup) == Ok(all[i].value)
    decreases |tenant|
  {
    if tenant != [] {
      var rest := tenant[1..];
      R.ExpandIsScan(tenant[0].value, lookup);
      R.ScanSucceeds(tenant[0].value, 0, lookup);
      VariablesExactly(rest, lookup);
      assert forall i :: 0 < i < |tenant| ==> tenant[i] == rest[i - 1];
      if ExpandAll(tenant, lookup).Ok? {
        var all, later := ExpandAll(tenant, lookup).value, ExpandAll(rest, lookup).value;
        assert forall i :: 0 < i < |all| ==> all[i] == later[i - 1];
      }
    }
  }

  /** The first of them with a reference that is not offered is what the refusal names, with that reference. */
  lemma {:induction false} RefusedVariable(tenant: seq<Pair>, lookup: R.Lookup) returns (k: nat)
    requires ExpandAll(tenant, lookup).Err?
    ensures k < |tenant| && forall i :: 0 <= i < k ==> R.AllKnown(tenant[i].value, 0, lookup)
    ensures
      var scanned := R.Scan(tenant[k].value, 0, lookup);
      scanned.Err? && ExpandAll(tenant, lookup).error == UnknownReference(tenant[k].key, scanned.error)
    decreases |tenant|
  {
    k := 0;
    R.ExpandIsScan(tenant[0].value, lookup);
    R.ScanSucceeds(tenant[0].value, 0, lookup);
    if R.AllKnown(tenant[0].value, 0, lookup) {
      var later := RefusedVariable(tenant[1..], lookup);
      k := later + 1;
      assert forall i :: 0 < i < |tenant| ==> tenant[i] == tenant[1..][i - 1];
    }
  }

  // The whole file.

  ghost predicate HasFigure(runtime: seq<Pair>, key: string) {
    Named(runtime, key).Some? && ParseU32(Named(runtime, key).value).Some?
  }

  /** The five figures and four texts that must be there, one of them to read as a number. */
  ghost predicate HasScalars<F>(float: Float<F>, runtime: seq<Pair>) {
    && HasFigure(runtime, Key("HTTP_PORT")) && HasFigure(runtime, Key("LAYERS"))
    && Named(runtime, Key("PROGRAM")).Some? && Named(runtime, Key("CWD")).Some?
    && HasFigure(runtime, Key("MAX_RESTARTS")) && HasFigure(runtime, Key("INITIAL_BACKOFF_MS"))
    && HasFigure(runtime, Key("MAX_BACKOFF_MS")) && HasFigure(runtime, Key("RESET_AFTER_MS"))
    && Named(runtime, Key("BACKOFF_FACTOR")).Some? && float(Named(runtime, Key("BACKOFF_FACTOR")).value).Some?
  }

  lemma ScalarsExactly<F>(
    float: Float<F>, runtime: seq<Pair>, nameservers: seq<string>, arguments: seq<string>, environment: seq<Pair>)
    ensures
      var r := ParseScalars(float, runtime, nameservers, arguments, environment);
      && (r.Ok? <==> HasScalars(float, runtime))
      && (r.Ok? ==>
            && r.value.nameservers == nameservers && r.value.arguments == arguments
            && r.value.environment == environment)
  {
  }

  /** The arguments named in the file are numbered from 0 without a gap, at most 64 of them. */
  ghost predicate ArgumentsGood(runtime: seq<Pair>) {
    ArgumentsFrom(runtime, 0).Ok? && CountArguments(runtime) == |ArgumentsFrom(runtime, 0).value|
  }

  /**
   The guest takes a file exactly when each line of it is empty or KEY=VALUE, its arguments run from 0
   without a gap, it has at most 256 variables, none with a reference that is not offered, and every
   scalar is there and reads as what it must be.
   */
  lemma ParseExactly<F>(float: Float<F>, text: string)
    ensures
      var lines := LinesOf(text);
      Parse(float, text).Ok? <==>
      && (forall i :: 0 <= i < |lines| ==> Readable(lines[i]))
      && Sort(lines).Ok?
      && var s := Sort(lines).value;
         && Named(s.runtime, Key("DNS")).Some? && HasScalars(float, s.runtime)
         && ArgumentsGood(s.runtime) && |s.tenant| <= 256
         && forall i :: 0 <= i < |s.tenant| ==> R.AllKnown(s.tenant[i].value, 0, Offered(s.runtime))
  {
    var lines := LinesOf(text);
    SortExactly(lines);
    if Sort(lines).Ok? && Named(Sort(lines).value.runtime, Key("DNS")).Some? {
      var s := Sort(lines).value;
      VariablesExactly(s.tenant, Offered(s.runtime));
      var lists := ParseLists(s.runtime, s.tenant);
      if lists.Ok? {
        ScalarsExactly(float, s.runtime, Nameservers(Named(s.runtime, Key("DNS")).value), lists.value.0, lists.value.1);
      }
    }
  }
}
