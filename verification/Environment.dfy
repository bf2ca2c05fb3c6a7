/** Step 7 of create: the environment of a new server is resolved from the request and the egg's defaults, and
    validated against the rules of every egg variable. */
module Environment {
  import opened Common
  import opened Rules

  datatype EggVariable = EggVariable(key: string, rules: string, defaultValue: string)

  type Values = map<string, string>

  // ------------------------------------------------------------------------------------------------
  // Specification.

  function Keys(vars: seq<EggVariable>): set<string> {
    set v | v in vars :: v.key
  }

  /** `v` is the last egg variable with its key. */
  ghost predicate IsLast(vars: seq<EggVariable>, i: int) {
    0 <= i < |vars| && forall j :: i < j < |vars| ==> vars[j].key != vars[i].key
  }

  /** The declared keys and nothing else; a provided value wins, then the default of the last variable of the key. */
  ghost predicate IsResolved(env: Values, vars: seq<EggVariable>, provided: Values) {
    && env.Keys == Keys(vars)
    && (forall k :: k in env && k in provided ==> env[k] == provided[k])
    && (forall i :: IsLast(vars, i) && vars[i].key !in provided ==> env[vars[i].key] == vars[i].defaultValue)
  }

  predicate Satisfies(host: Host, env: Values, v: EggVariable) {
    v.key in env && Accepts(host, Some(env[v.key]), Parse(v.rules))
  }

  /** The value `validateServerVariables` looks at: the map, then the default of the variable at hand. */
  function LookUp(env: Values, v: EggVariable): string {
    if v.key in env then env[v.key] else v.defaultValue
  }

  predicate Passes(host: Host, env: Values, v: EggVariable) {
    Accepts(host, Some(LookUp(env, v)), Parse(v.rules))
  }

  /** `v` at position i is the last egg variable of its key that the values break. */
  ghost predicate IsLastBroken(host: Host, env: Values, vars: seq<EggVariable>, i: int) {
    && 0 <= i < |vars| && !Passes(host, env, vars[i])
    && forall j :: i < j < |vars| && vars[j].key == vars[i].key ==> Passes(host, env, vars[j])
  }

  /** `errors` has one entry for every key with a broken variable: the errors of the last one. */
  ghost predicate IsReport(host: Host, env: Values, vars: seq<EggVariable>, errors: map<string, seq<Error>>) {
    && (forall k :: k in errors ==> exists i :: IsLastBroken(host, env, vars, i) && vars[i].key == k)
    && (forall i :: IsLastBroken(host, env, vars, i) ==>
          && vars[i].key in errors
          && errors[vars[i].key] == Errors(host, Some(LookUp(env, vars[i])), Parse(vars[i].rules)))
  }

  // ------------------------------------------------------------------------------------------------
  // The two loops.

  function Resolve(v: EggVariable, provided: Values): string {
    if v.key in provided then provided[v.key] else v.defaultValue
  }

  lemma LastInLonger(vars: seq<EggVariable>, v: EggVariable, i: int)
    requires 0 <= i < |vars|
    ensures IsLast(vars + [v], i) <==> IsLast(vars, i) && v.key != vars[i].key
  {
    var longer := vars + [v];
    assert longer[|vars|] == v && forall j :: 0 <= j < |vars| ==> longer[j] == vars[j];
  }

  lemma ExtendResolved(env: Values, vars: seq<EggVariable>, v: EggVariable, provided: Values)
    requires IsResolved(env, vars, provided)
    ensures IsResolved(env[v.key := Resolve(v, provided)], vars + [v], provided)
  {
    var longer, env' := vars + [v], env[v.key := Resolve(v, provided)];
    forall i | IsLast(longer, i) && longer[i].key !in provided
      ensures longer[i].key in env' && env'[longer[i].key] == longer[i].defaultValue
    {
      if i < |vars| {
        LastInLonger(vars, v, i);
      }
    }
  }

  method ResolveEnvironment(vars: seq<EggVariable>, provided: Values) returns (env: Values)
    ensures IsResolved(env, vars, provided)
  {
    env := map[];
    for n := 0 to |vars|
      invariant IsResolved(env, vars[..n], provided)
    {
      var v := vars[n];
      ExtendResolved(env, vars[..n], v, provided);
      assert vars[..n + 1] == vars[..n] + [v];
      env := env[v.key := if v.key in provided then provided[v.key] else v.defaultValue];
    }
    assert vars[..|vars|] == vars;
  }

  lemma BrokenInLonger(host: Host, env: Values, vars: seq<EggVariable>, v: EggVariable, i: int)
    requires 0 <= i < |vars|
    ensures IsLastBroken(host, env, vars + [v], i) <==>
              IsLastBroken(host, env, vars, i) && (v.key == vars[i].key ==> Passes(host, env, v))
  {
    var longer := vars + [v];
    assert longer[|vars|] == v && forall j :: 0 <= j < |vars| ==> longer[j] == vars[j];
  }

  function Extend(host: Host, env: Values, v: EggVariable, errors: map<string, seq<Error>>): map<string, seq<Error>> {
    if Passes(host, env, v) then errors else errors[v.key := Errors(host, Some(LookUp(env, v)), Parse(v.rules))]
  }

  lemma ExtendReport(host: Host, env: Values, vars: seq<EggVariable>, v: EggVariable, errors: map<string, seq<Error>>)
    requires IsReport(host, env, vars, errors)
    ensures IsReport(host, env, vars + [v], Extend(host, env, v, errors))
  {
    var longer, errors' := vars + [v], Extend(host, env, v, errors);
    assert longer[|vars|] == v;
    forall k | k in errors' ensures exists i :: IsLastBroken(host, env, longer, i) && longer[i].key == k {
      if k == v.key && !Passes(host, env, v) {
        assert IsLastBroken(host, env, longer, |vars|);
      } else {
        var i :| IsLastBroken(host, env, vars, i) && vars[i].key == k;
        BrokenInLonger(host, env, vars, v, i);
      }
    }
    forall i | IsLastBroken(host, env, longer, i)
      ensures longer[i].key in errors'
      ensures errors'[longer[i].key] == Errors(host, Some(LookUp(env, longer[i])), Parse(longer[i].rules))
    {
      if i < |vars| {
        BrokenInLonger(host, env, vars, v, i);
      }
    }
  }

  lemma {:induction false} BrokenIsReported(host: Host, env: Values, vars: seq<EggVariable>, i: int)
    returns (last: int)
    requires 0 <= i < |vars| && !Passes(host, env, vars[i])
    ensures IsLastBroken(host, env, vars, last) && vars[last].key == vars[i].key
    decreases |vars| - i
  {
    if j :| i < j < |vars| && vars[j].key == vars[i].key && !Passes(host, env, vars[j]) {
      last := BrokenIsReported(host, env, vars, j);
    } else {
      last := i;
    }
  }

  lemma EmptyReportIff(host: Host, env: Values, vars: seq<EggVariable>, errors: map<string, seq<Error>>)
    requires IsReport(host, env, vars, errors)
    ensures errors == map[] <==> forall v :: v in vars ==> Passes(host, env, v)
  {
    if errors == map[] {
      forall i | 0 <= i < |vars| ensures Passes(host, env, vars[i]) {
        if !Passes(host, env, vars[i]) {
          var last := BrokenIsReported(host, env, vars, i);
        }
      }
    } else {
      var k :| k in errors;
      var i :| IsLastBroken(host, env, vars, i) && vars[i].key == k;
      assert vars[i] in vars;
    }
  }

  /** The body of the loop. */
  method CheckVariable(host: Host, env: Values, v: EggVariable, errors: map<string, seq<Error>>)
    returns (errors': map<string, seq<Error>>)
    ensures errors' == Extend(host, env, v, errors)
  {
    var ok, found := ValidateVariableValue(host, Some(LookUp(env, v)), v.rules);
    if ok {
      return errors;
    }
    return errors[v.key := found];
  }

  method ValidateServerVariables(host: Host, env: Values, vars: seq<EggVariable>)
    returns (valid: bool, errors: map<string, seq<Error>>)
    ensures valid <==> forall v :: v in vars ==> Passes(host, env, v)
    ensures valid <==> forall v :: v in vars ==>
      Accepts(host, Some(if v.key in env then env[v.key] else v.defaultValue), Parse(v.rules))
    ensures IsReport(host, env, vars, errors)
  {
    errors := map[];
    for n := 0 to |vars|
      invariant IsReport(host, env, vars[..n], errors)
    {
      ExtendReport(host, env, vars[..n], vars[n], errors);
      assert vars[..n + 1] == vars[..n] + [vars[n]];
      errors := CheckVariable(host, env, vars[n], errors);
    }
    assert vars[..|vars|] == vars;
    EmptyReportIff(host, env, vars, errors);
    valid := errors == map[];
  }

  /** On a resolved environment the validator's own defaulting never happens: every variable is judged by the stored
      value of its key, duplicates included. */
  lemma DefaultingIsRedundant(host: Host, env: Values, vars: seq<EggVariable>, provided: Values)
    requires IsResolved(env, vars, provided)
    ensures forall v :: v in vars ==> v.key in env && LookUp(env, v) == env[v.key]
    ensures forall v :: v in vars ==> (Passes(host, env, v) <==> Satisfies(host, env, v))
  {
    forall v | v in vars ensures v.key in env {
      assert v.key in Keys(vars);
    }
  }

  /** Every declared key has a last variable. */
  lemma {:induction false} LastExists(vars: seq<EggVariable>, k: string) returns (i: int)
    requires k in Keys(vars)
    ensures IsLast(vars, i) && vars[i].key == k
    decreases |vars|
  {
    var n := |vars| - 1;
    if vars[n].key == k {
      i := n;
    } else {
      assert k in Keys(vars[..n]) by {
        var v :| v in vars && v.key == k;
        assert v in vars[..n];
      }
      i := LastExists(vars[..n], k);
      assert forall j :: i < j < n ==> vars[..n][j].key != k;
    }
  }

  /** MAIN RESULT. Resolution is a function of the request and the egg: two environments that meet the specification
      are equal, so what create stores is fixed key by key. */
  lemma ResolvedIsUnique(env: Values, env': Values, vars: seq<EggVariable>, provided: Values)
    requires IsResolved(env, vars, provided) && IsResolved(env', vars, provided)
    ensures env == env'
  {
    forall k | k in env ensures env[k] == env'[k] {
      if k !in provided {
        var i := LastExists(vars, k);
      }
    }
  }

  /** MAIN RESULT. Resolution and validation together, as create runs them. Create goes through exactly when the
      environment that request and egg determine satisfies the rules of every egg variable, and then stores that
      environment; otherwise it reports on that environment. */
  method PrepareEnvironment(host: Host, vars: seq<EggVariable>, provided: Values)
    returns (r: Result<Values, map<string, seq<Error>>>)
    ensures r.Ok? <==>
      forall env :: IsResolved(env, vars, provided) ==> forall v :: v in vars ==> Satisfies(host, env, v)
    ensures r.Ok? ==> IsResolved(r.value, vars, provided)
    ensures r.Err? ==> exists env :: IsResolved(env, vars, provided) && IsReport(host, env, vars, r.error)
  {
    var env := ResolveEnvironment(vars, provided);
    DefaultingIsRedundant(host, env, vars, provided);
    var valid, errors := ValidateServerVariables(host, env, vars);
    forall other | IsResolved(other, vars, provided)
      ensures other == env
    {
      ResolvedIsUnique(other, env, vars, provided);
    }
    if !valid {
      assert exists v :: v in vars && !Satisfies(host, env, v);
      return Err(errors);
    }
    return Ok(env);
  }
}
