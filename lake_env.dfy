/** `get_env` of the asynchronous client: the output of `lake env` is
    one `KEY=VALUE` pair per line; empty lines are skipped, each other line
    is split at its first `=`, and a later line for a key overrides an
    earlier one. The process itself is not modelled: its exit code and
    its two output streams are inputs. */
module LakeEnv {
  import opened Wrappers
  import opened Search

  datatype EnvError =
    | CommandFailed(code: int, stderr: string)   // the RuntimeError for a non-zero exit code
    | ValueError(line: string)                   // a non-empty line without '='

  datatype EnvOutput = Dict(env: map<string, string>) | Text(text: string)

  /** `s.split(c)`: the pieces between the occurrences of `c`. */
  function Split(s: string, c: char): (r: seq<string>)
    ensures |r| >= 1
    ensures forall i :: 0 <= i < |r| ==> c !in r[i]
    decreases |s|
  {
    match Find(s, c)
    case None => [s]
    case Some(i) => [s[..i]] + Split(s[i + 1..], c)
  }

  /** `c.join(parts)`. */
  function Join(parts: seq<string>, c: char): string
    requires |parts| >= 1
    decreases |parts|
  {
    if |parts| == 1 then parts[0] else parts[0] + [c] + Join(parts[1..], c)
  }

  /** The parsing loop as a function: `env` holds the pairs read so far. */
  function ParseLines(lines: seq<string>, env: map<string, string>): (r: Result<map<string, string>, EnvError>)
    ensures r.Err? ==> r.error.ValueError? && r.error.line in lines && r.error.line != [] && '=' !in r.error.line
    decreases |lines|
  {
    if lines == [] then Ok(env)
    else if lines[0] == [] then ParseLines(lines[1..], env)
    else match Find(lines[0], '=')
      case None => Err(ValueError(lines[0]))
      case Some(i) => ParseLines(lines[1..], env[lines[0][..i] := lines[0][i + 1..]])
  }

  function ParseEnv(text: string): Result<map<string, string>, EnvError> {
    ParseLines(Split(text, '\n'), map[])
  }

  /** The parsing loop of `get_env`. */
  method ParseEnvText(text: string) returns (res: Result<map<string, string>, EnvError>)
    ensures res == ParseEnv(text)
  {
    var lines := Split(text, '\n');
    var env: map<string, string> := map[];
    for i := 0 to |lines|
      invariant ParseEnv(text) == ParseLines(lines[i..], env)
    {
      assert lines[i..][1..] == lines[i + 1..];
      var line := lines[i];
      if line == [] {
        continue;
      }
      var eq := Find(line, '=');
      if eq.None? {
        return Err(ValueError(line));
      }
      var key, value := line[..eq.value], line[eq.value + 1..];
      env := env[key := value];
    }
    res := Ok(env);
  }

  /** `get_env` once `lake env` has finished. */
  method GetEnv(returnCode: int, stdout: string, stderr: string, returnDict: bool) returns (res: Result<EnvOutput, EnvError>)
    ensures returnCode != 0 ==> res == Err(CommandFailed(returnCode, stderr))
    ensures returnCode == 0 && !returnDict ==> res == Ok(Text(stdout))
    ensures returnCode == 0 && returnDict ==>
      res == match ParseEnv(stdout) case Ok(env) => Ok(Dict(env)) case Err(e) => Err(e)
  {
    if returnCode != 0 {
      return Err(CommandFailed(returnCode, stderr));
    }
    if !returnDict {
      return Ok(Text(stdout));
    }
    var parsed := ParseEnvText(stdout);
    match parsed {
      case Ok(env) => res := Ok(Dict(env));
      case Err(e) => res := Err(e);
    }
  }

  // ---------------------------------------------------------------------
  // Properties

  /** Splitting undoes joining, when no piece holds the separator. */
  lemma {:induction false} SplitJoin(parts: seq<string>, c: char)
    requires |parts| >= 1 && forall i :: 0 <= i < |parts| ==> c !in parts[i]
    ensures Split(Join(parts, c), c) == parts
    decreases |parts|
  {
    if |parts| == 1 {
    } else {
      var s := Join(parts, c);
      var p := parts[0];
      SplitJoin(parts[1..], c);
      assert s[..|p|] == p && s[|p|] == c && s[|p| + 1..] == Join(parts[1..], c);
      FindAfter(p, c, Join(parts[1..], c));
    }
  }

  /** The text `lake env` prints for a list of pairs: one line each, each
      ending in a newline. */
  function Render(pairs: seq<(string, string)>): string {
    Join(Lines(pairs) + [""], '\n')
  }

  function Lines(pairs: seq<(string, string)>): (r: seq<string>)
    ensures |r| == |pairs|
    ensures forall i :: 0 <= i < |r| ==> r[i] == pairs[i].0 + "=" + pairs[i].1
  {
    if pairs == [] then [] else [pairs[0].0 + "=" + pairs[0].1] + Lines(pairs[1..])
  }

  /** The dictionary the pairs describe, a later pair for a key winning. */
  function Assigned(env: map<string, string>, pairs: seq<(string, string)>): map<string, string>
    decreases |pairs|
  {
    if pairs == [] then env else Assigned(env[pairs[0].0 := pairs[0].1], pairs[1..])
  }

  /** Keys without `=` or a newline, values without a newline: the lines
      `get_env` can read back. */
  predicate Printable(pairs: seq<(string, string)>) {
    forall i :: 0 <= i < |pairs| ==> '=' !in pairs[i].0 && '\n' !in pairs[i].0 && '\n' !in pairs[i].1
  }

  lemma {:induction false} ParseLinesLines(pairs: seq<(string, string)>, env: map<string, string>)
    requires Printable(pairs)
    ensures ParseLines(Lines(pairs) + [""], env) == Ok(Assigned(env, pairs))
    decreases |pairs|
  {
    var ls := Lines(pairs) + [""];
    if pairs == [] {
      assert ls == [""];
      assert ls[1..] == [];
    } else {
      var (k, v) := pairs[0];
      assert ls[0] == k + "=" + v && ls[0] != [];
      FindAfter(k, '=', v);
      assert ls[0][..|k|] == k && ls[0][|k| + 1..] == v;
      assert ls[1..] == Lines(pairs[1..]) + [""];
      ParseLinesLines(pairs[1..], env[k := v]);
    }
  }

  /** `get_env` reads back what `lake env` prints: every pair, values
      with `=` in them included, later pairs for a key overriding earlier
      ones. */
  lemma ParseRender(pairs: seq<(string, string)>)
    requires Printable(pairs)
    ensures ParseEnv(Render(pairs)) == Ok(Assigned(map[], pairs))
  {
    var ls := Lines(pairs) + [""];
    forall i | 0 <= i < |ls| ensures '\n' !in ls[i] {
      if i < |pairs| {
        assert ls[i] == pairs[i].0 + "=" + pairs[i].1;
      }
    }
    SplitJoin(ls, '\n');
    ParseLinesLines(pairs, map[]);
  }

  /** Parsing fails exactly when some non-empty line has no `=`. */
  lemma {:induction false} ParseLinesError(lines: seq<string>, env: map<string, string>)
    ensures ParseLines(lines, env).Err? <==> exists i :: 0 <= i < |lines| && lines[i] != [] && '=' !in lines[i]
    decreases |lines|
  {
    if lines != [] {
      var tail := lines[1..];
      if lines[0] == [] || '=' in lines[0] {
        match Find(lines[0], '=')
        case None =>
          ParseLinesError(tail, env);
        case Some(k) =>
          ParseLinesError(tail, if lines[0] == [] then env else env[lines[0][..k] := lines[0][k + 1..]]);
        forall i | 1 <= i < |lines| ensures lines[i] == tail[i - 1] { }
        forall i | 0 <= i < |tail| ensures tail[i] == lines[i + 1] { }
      }
    }
  }
}
