/** Context variables of a request: temporary binding, sanitising, and the trip through task
    headers. */
module RequestContext {
  import opened Wrappers

  // ---------------------------------------------------------------- values

  const MAX_LENGTH := 128

  /** The characters for which `isprintable` holds, as the Unicode tables of the interpreter say.  All
      results hold for any such set; of white space it can contain ' ' only. */
  const PRINTABLE: set<char>

  predicate Printable(c: char) { c in PRINTABLE }

  function KeepPrintable(s: string): string {
    if s == "" then "" else (if Printable(s[0]) then [s[0]] else []) + KeepPrintable(s[1..])
  }

  /** `strip` after the filter: a space is the only white space that is printable. */
  function StripLeft(s: string): string { if s != "" && s[0] == ' ' then StripLeft(s[1..]) else s }

  function StripRight(s: string): string {
    if s != "" && s[|s| - 1] == ' ' then StripRight(s[..|s| - 1]) else s
  }

  function Sanitize(value: Option<string>): Option<string> {
    match value
    case None => None
    case Some(v) =>
      var normalized := StripRight(StripLeft(KeepPrintable(v)));
      if normalized == "" then None
      else Some(if |normalized| > MAX_LENGTH then normalized[..MAX_LENGTH] else normalized)
  }

  ghost predicate AllPrintable(s: string) { forall i :: 0 <= i < |s| ==> Printable(s[i]) }

  /** A value that sanitising leaves alone. */
  ghost predicate Clean(s: string) {
    0 < |s| <= MAX_LENGTH && AllPrintable(s) && s[0] != ' ' && s[|s| - 1] != ' '
  }

  lemma {:induction false} KeepPrintableFacts(s: string)
    ensures AllPrintable(KeepPrintable(s)) && |KeepPrintable(s)| <= |s|
    ensures KeepPrintable(s) == s <==> AllPrintable(s)
  {
    if s != "" {
      KeepPrintableFacts(s[1..]);
      assert s == [s[0]] + s[1..];
      assert AllPrintable(s) <==> Printable(s[0]) && AllPrintable(s[1..]) by {
        assert forall i :: 1 <= i < |s| ==> s[i] == s[1..][i - 1];
      }
      if Printable(s[0]) { assert KeepPrintable(s)[1..] == KeepPrintable(s[1..]); }
    }
  }

  lemma {:induction false} StripFacts(s: string)
    ensures var l := StripLeft(s); |l| <= |s| && (l == "" || l[0] != ' ') && l == s[|s| - |l|..]
    ensures var r := StripRight(s); |r| <= |s| && (r == "" || r[|r| - 1] != ' ') && r == s[..|r|]
  {
    if s != "" {
      if s[0] == ' ' { StripFacts(s[1..]); }
      if s[|s| - 1] == ' ' { StripFacts(s[..|s| - 1]); }
    }
  }

  lemma NormalizedShape(s: string)
    ensures var n := StripRight(StripLeft(KeepPrintable(s)));
            AllPrintable(n) && (n != "" ==> n[0] != ' ' && n[|n| - 1] != ' ')
  {
    KeepPrintableFacts(s);
    var kept := KeepPrintable(s);
    StripFacts(kept);
    StripFacts(StripLeft(kept));
  }

  /** Every sanitised value is printable, non-empty, short enough and starts with no space. */
  lemma SanitizedShape(value: Option<string>)
    requires Sanitize(value).Some?
    ensures var s := Sanitize(value).value;
            && 0 < |s| <= MAX_LENGTH && AllPrintable(s) && s[0] != ' '
            && (s[|s| - 1] == ' ' ==> |s| == MAX_LENGTH)
  {
    NormalizedShape(value.value);
  }

  lemma CleanStays(s: string)
    requires Clean(s)
    ensures Sanitize(Some(s)) == Some(s)
  {
    KeepPrintableFacts(s);
    assert StripLeft(s) == s && StripRight(s) == s;
  }

  /** The value that is cut to length. */
  function Normalized(s: string): string { StripRight(StripLeft(KeepPrintable(s))) }

  lemma NormalizedShorter(s: string)
    ensures |Normalized(s)| <= |s|
  {
    KeepPrintableFacts(s);
    StripFacts(KeepPrintable(s));
    StripFacts(StripLeft(KeepPrintable(s)));
  }

  lemma StaysIsClean(s: string)
    requires Sanitize(Some(s)) == Some(s)
    ensures Clean(s)
  {
    NormalizedShape(s);
    NormalizedShorter(s);
  }

  /** Sanitising keeps a value exactly when it is clean. */
  lemma SanitizeKeepsExactlyClean(s: string)
    ensures Sanitize(Some(s)) == Some(s) <==> Clean(s)
  {
    if Clean(s) { CleanStays(s); }
    if Sanitize(Some(s)) == Some(s) { StaysIsClean(s); }
  }

  /** So a second pass changes a value exactly when the first one cuts it right after a space. */
  lemma SanitizeTwice(s: string)
    ensures Sanitize(Sanitize(Some(s))) != Sanitize(Some(s)) <==>
            |Normalized(s)| > MAX_LENGTH && Normalized(s)[MAX_LENGTH - 1] == ' '
  {
    NormalizedShape(s);
    if Sanitize(Some(s)).Some? {
      SanitizeKeepsExactlyClean(Sanitize(Some(s)).value);
    }
  }

  /** There are such values: a space in the last place that is kept, and something behind it. */
  lemma SomeValueChangesTwice(c: char) returns (s: string)
    requires c != ' ' && c in PRINTABLE && ' ' in PRINTABLE
    ensures Sanitize(Sanitize(Some(s))) != Sanitize(Some(s))
  {
    s := seq(MAX_LENGTH - 1, _ => c) + " " + [c];
    KeepPrintableFacts(s);
    assert s[|s| - 1] == c;
    assert StripLeft(s) == s && StripRight(s) == s;
    SanitizeTwice(s);
  }

  lemma KeepPrintableCons(c: char, s: string)
    ensures KeepPrintable([c] + s) == (if c in PRINTABLE then [c] else []) + KeepPrintable(s)
  {
    assert ([c] + s)[1..] == s;
  }

  /** The filter decides about each character on its own and keeps the order. */
  lemma {:induction false} KeepPrintableConcat(a: string, b: string)
    ensures KeepPrintable(a + b) == KeepPrintable(a) + KeepPrintable(b)
  {
    if a == "" {
      assert a + b == b;
    } else {
      var c, rest := a[0], a[1..];
      KeepPrintableConcat(rest, b);
      KeepPrintableCons(c, rest);
      KeepPrintableCons(c, rest + b);
      assert a == [c] + rest && a + b == [c] + (rest + b);
    }
  }

  ghost predicate Blank(s: string) { forall i :: 0 <= i < |s| ==> s[i] == ' ' }

  ghost predicate Trimmed(s: string) { s == "" || (s[0] != ' ' && s[|s| - 1] != ' ') }

  lemma {:induction false} StripLeftBlank(blank: string, rest: string)
    requires Blank(blank) && (rest == "" || rest[0] != ' ')
    ensures StripLeft(blank + rest) == rest
  {
    if blank == "" {
      assert blank + rest == rest;
    } else {
      assert (blank + rest)[1..] == blank[1..] + rest;
      StripLeftBlank(blank[1..], rest);
    }
  }

  lemma {:induction false} StripRightBlank(rest: string, blank: string)
    requires Blank(blank) && (rest == "" || rest[|rest| - 1] != ' ')
    ensures StripRight(rest + blank) == rest
  {
    if blank == "" {
      assert rest + blank == rest;
    } else {
      assert (rest + blank)[..|rest + blank| - 1] == rest + blank[..|blank| - 1];
      StripRightBlank(rest, blank[..|blank| - 1]);
    }
  }

  /** Sanitising gives what the printable characters have between their outer spaces, cut to length;
      nothing if they are all spaces. */
  lemma SanitizeExactly(value: string, before: string, middle: string, after: string)
    requires KeepPrintable(value) == before + middle + after && Blank(before) && Blank(after) && Trimmed(middle)
    ensures Sanitize(Some(value)) ==
              if middle == "" then None else if |middle| <= MAX_LENGTH then Some(middle) else Some(middle[..MAX_LENGTH])
  {
    if middle == "" {
      assert before + middle + after == (before + after) + "";
      StripLeftBlank(before + after, "");
    } else {
      assert before + middle + after == before + (middle + after);
      StripLeftBlank(before, middle + after);
      StripRightBlank(middle, after);
    }
  }

  // ---------------------------------------------------------------- variables and programs

  /** The known fields with their current values. */
  type Env = map<string, Option<string>>

  datatype Binding = Binding(field: string, value: Option<string>)

  /** What code does with the context: set fields, bind fields around a body, or raise. */
  datatype Action = Set(values: seq<Binding>) | Bind(values: seq<Binding>, body: seq<Action>) | Raise

  datatype Outcome = Outcome(env: Env, raised: bool)

  /** Assign one field after the other; an unknown field raises and leaves the earlier ones set. */
  function Assign(env: Env, values: seq<Binding>): Outcome {
    if values == [] then Outcome(env, false)
    else if values[0].field !in env then Outcome(env, true)
    else Assign(env[values[0].field := Sanitize(values[0].value)], values[1..])
  }

  datatype Token = Token(field: string, previous: Option<string>)

  /** The tokens taken on the way, one for each field that was assigned. */
  function Tokens(env: Env, values: seq<Binding>): seq<Token> {
    if values == [] || values[0].field !in env then []
    else [Token(values[0].field, env[values[0].field])] +
         Tokens(env[values[0].field := Sanitize(values[0].value)], values[1..])
  }

  /** Reset in reverse order. */
  function Restore(env: Env, tokens: seq<Token>): Env
    decreases |tokens|
  {
    if tokens == [] then env
    else
      var last := tokens[|tokens| - 1];
      Restore(env[last.field := last.previous], tokens[..|tokens| - 1])
  }

  function Exec(env: Env, actions: seq<Action>): Outcome
    decreases actions
  {
    if actions == [] then Outcome(env, false)
    else
      var first := ExecOne(env, actions[0]);
      if first.raised then first else Exec(first.env, actions[1..])
  }

  function ExecOne(env: Env, a: Action): Outcome
    decreases a
  {
    match a
    case Raise => Outcome(env, true)
    case Set(values) => Assign(env, values)
    case Bind(values, body) =>
      var entered := Assign(env, values);
      var left := if entered.raised then entered else Exec(entered.env, body);
      Outcome(Restore(left.env, Tokens(env, values)), left.raised)
  }

  // ---------------------------------------------------------------- restoration

  /** The fields assigned before the first unknown one. */
  function BoundFields(env: Env, values: seq<Binding>): set<string> {
    if values == [] || values[0].field !in env then {}
    else {values[0].field} + BoundFields(env, values[1..])
  }

  lemma {:induction false} AssignKeys(env: Env, values: seq<Binding>)
    ensures Assign(env, values).env.Keys == env.Keys
    ensures forall f :: f in env && f !in BoundFields(env, values) ==> Assign(env, values).env[f] == env[f]
    ensures BoundFields(env, values) <= env.Keys
  {
    if values != [] && values[0].field in env {
      var env' := env[values[0].field := Sanitize(values[0].value)];
      AssignKeys(env', values[1..]);
      SameKeysSameBound(env, env', values[1..]);
    }
  }

  lemma {:induction false} SameKeysSameBound(env: Env, env': Env, values: seq<Binding>)
    requires env.Keys == env'.Keys
    ensures BoundFields(env, values) == BoundFields(env', values)
  {
    if values != [] && values[0].field in env { SameKeysSameBound(env, env', values[1..]); }
  }

  lemma {:induction false} RestoreAppend(env: Env, t: Token, tokens: seq<Token>)
    ensures Restore(env, [t] + tokens) == Restore(env, tokens)[t.field := t.previous]
    decreases |tokens|
  {
    var all := [t] + tokens;
    if tokens == [] {
      assert all[..0] == [];
    } else {
      var last := tokens[|tokens| - 1];
      assert all[|all| - 1] == last && all[..|all| - 1] == [t] + tokens[..|tokens| - 1];
      RestoreAppend(env[last.field := last.previous], t, tokens[..|tokens| - 1]);
    }
  }

  /** Restoring puts the entry value back into every assigned field, and into no other field,
      whatever happened to the variables in between. */
  lemma {:induction false} RestoreUndoes(env: Env, values: seq<Binding>, later: Env)
    requires later.Keys == env.Keys
    ensures var restored := Restore(later, Tokens(env, values)); var bound := BoundFields(env, values);
            && restored.Keys == env.Keys && bound <= env.Keys
            && forall f :: f in env ==> restored[f] == if f in bound then env[f] else later[f]
  {
    if values != [] && values[0].field in env {
      var b := values[0];
      var env' := env[b.field := Sanitize(b.value)];
      RestoreUndoes(env', values[1..], later);
      SameKeysSameBound(env, env', values[1..]);
      RestoreAppend(later, Token(b.field, env[b.field]), Tokens(env', values[1..]));
    }
  }

  lemma {:induction false} ExecKeys(env: Env, actions: seq<Action>)
    ensures Exec(env, actions).env.Keys == env.Keys
    decreases actions
  {
    if actions != [] {
      ExecOneKeys(env, actions[0]);
      ExecKeys(ExecOne(env, actions[0]).env, actions[1..]);
    }
  }

  lemma {:induction false} ExecOneKeys(env: Env, a: Action)
    ensures ExecOne(env, a).env.Keys == env.Keys
    decreases a
  {
    match a
    case Raise =>
    case Set(values) => AssignKeys(env, values);
    case Bind(values, body) =>
      AssignKeys(env, values);
      ExecKeys(Assign(env, values).env, body);
      RestoreUndoes(env, values, if Assign(env, values).raised then Assign(env, values).env
                                 else Exec(Assign(env, values).env, body).env);
  }

  /** Leaving a bind, normally or by an exception of any body of nested sets and binds, every
      bound field has its entry value again and every other field is as the body left it; and a
      bind that fails on an unknown field changes nothing at all. */
  lemma BindRestores(env: Env, values: seq<Binding>, body: seq<Action>)
    ensures var entered := Assign(env, values); var left := ExecOne(env, Bind(values, body));
            var inner := Exec(entered.env, body);
            && (entered.raised ==> left == Outcome(env, true))
            && (!entered.raised ==>
                  && left.raised == inner.raised && left.env.Keys == env.Keys == inner.env.Keys
                  && (forall f :: f in env ==> left.env[f] == if f in BoundFields(env, values) then env[f] else inner.env[f]))
  {
    AssignKeys(env, values);
    var entered := Assign(env, values);
    ExecKeys(entered.env, body);
    if entered.raised {
      RestoreUndoes(env, values, entered.env);
      assert ExecOne(env, Bind(values, body)).env == env;
    } else {
      RestoreUndoes(env, values, Exec(entered.env, body).env);
    }
  }

  /** A bind assigns all its fields exactly when they are all known. */
  lemma {:induction false} AssignSucceeds(env: Env, values: seq<Binding>)
    ensures !Assign(env, values).raised <==> forall i :: 0 <= i < |values| ==> values[i].field in env
  {
    if values != [] && values[0].field in env {
      var env' := env[values[0].field := Sanitize(values[0].value)];
      AssignSucceeds(env', values[1..]);
      assert forall i :: 0 < i < |values| ==> values[i] == values[1..][i - 1];
    }
  }

  lemma {:induction false} NotNamedNotBound(env: Env, values: seq<Binding>, field: string)
    requires forall i :: 0 <= i < |values| ==> values[i].field != field
    ensures field !in BoundFields(env, values)
  {
    if values != [] { NotNamedNotBound(env, values[1..], field); }
  }

  /** When all fields are known each one named gets its sanitised value, the last one if it is named
      twice; the others keep what they had. */
  lemma {:induction false} AssignSetsLast(env: Env, values: seq<Binding>, i: nat)
    requires !Assign(env, values).raised && i < |values|
    requires forall j :: i < j < |values| ==> values[j].field != values[i].field
    ensures var after := Assign(env, values).env;
            values[i].field in after && after[values[i].field] == Sanitize(values[i].value)
    ensures forall f :: f in env && (forall j :: 0 <= j < |values| ==> values[j].field != f) ==>
              f in Assign(env, values).env && Assign(env, values).env[f] == env[f]
  {
    var env' := env[values[0].field := Sanitize(values[0].value)];
    AssignKeys(env', values[1..]);
    AssignKeys(env, values);
    if i > 0 {
      AssignSetsLast(env', values[1..], i - 1);
    } else {
      NotNamedNotBound(env', values[1..], values[0].field);
    }
    forall f | f in env && (forall j :: 0 <= j < |values| ==> values[j].field != f)
      ensures f in Assign(env, values).env && Assign(env, values).env[f] == env[f]
    {
      NotNamedNotBound(env, values, f);
    }
  }

  /** An unknown field raises after the fields before it were assigned. */
  lemma {:induction false} AssignStopsAtUnknown(env: Env, values: seq<Binding>, k: nat)
    requires k < |values| && values[k].field !in env && forall i :: 0 <= i < k ==> values[i].field in env
    ensures Assign(env, values) == Outcome(Assign(env, values[..k]).env, true)
  {
    if k > 0 {
      assert values[..k][1..] == values[1..][..k - 1];
      AssignStopsAtUnknown(env[values[0].field := Sanitize(values[0].value)], values[1..], k - 1);
    }
  }

  /** Code runs in order up to the first exception. */
  lemma {:induction false} ExecInOrder(env: Env, first: seq<Action>, second: seq<Action>)
    ensures Exec(env, first + second) ==
              if Exec(env, first).raised then Exec(env, first) else Exec(Exec(env, first).env, second)
    decreases |first|
  {
    if first == [] {
      assert first + second == second;
    } else {
      assert (first + second)[1..] == first[1..] + second;
      ExecInOrder(ExecOne(env, first[0]).env, first[1..], second);
    }
  }

  /** An exception leaves the variables as they were when it was raised, and nothing after it runs. */
  lemma NothingAfterRaise(env: Env, before: seq<Action>, rest: seq<Action>)
    requires !Exec(env, before).raised
    ensures Exec(env, before + ([Raise] + rest)) == Outcome(Exec(env, before).env, true)
  {
    ExecInOrder(env, before, [Raise] + rest);
  }

  // ---------------------------------------------------------------- task headers

  const HEADER_FIELDS: set<string> :=
    {"request_id", "correlation_id", "trace_id", "span_id", "user_id", "tenant_id", "project_id", "task_id", "run_id"}

  /** The populated header fields. */
  function AsTaskHeaders(env: Env): map<string, string> {
    map f | f in env && f in HEADER_FIELDS && env[f].Some? :: env[f].value
  }

  function FromHeaders(headers: map<string, string>): map<string, string> {
    map f | f in headers && f in HEADER_FIELDS && Sanitize(Some(headers[f])).Some? :: Sanitize(Some(headers[f])).value
  }

  /** The worker sees the sender's header fields unchanged exactly when none of them was cut right
      after a space; and nothing but header fields crosses. */
  lemma HeadersRoundTrip(env: Env)
    requires forall f :: f in env ==> exists v :: env[f] == Sanitize(v)
    ensures var sent := AsTaskHeaders(env);
            && FromHeaders(sent).Keys == sent.Keys <= HEADER_FIELDS
            && (FromHeaders(sent) == sent <==> forall f :: f in sent ==> sent[f] != "" && sent[f][|sent[f]| - 1] != ' ')
  {
    var sent := AsTaskHeaders(env);
    forall f | f in sent
      ensures sent[f] != "" && Sanitize(Some(sent[f])).Some?
      ensures Sanitize(Some(sent[f])) == Some(sent[f]) <==> sent[f][|sent[f]| - 1] != ' '
    {
      var v :| env[f] == Sanitize(v);
      SanitizedResent(v);
    }
    if FromHeaders(sent) == sent {
      forall f | f in sent ensures sent[f][|sent[f]| - 1] != ' ' { assert FromHeaders(sent)[f] == sent[f]; }
    }
  }

  /** Field by field: the worker has a header field exactly when the sender has a value for it, and the
      value is the same unless it was cut right after a space. */
  lemma HeaderFieldCrosses(env: Env, field: string)
    requires field in env && exists v :: env[field] == Sanitize(v)
    ensures var received := FromHeaders(AsTaskHeaders(env));
            && (field in received <==> field in HEADER_FIELDS && env[field].Some?)
            && (field in received ==>
                  && env[field].value != ""
                  && (received[field] == env[field].value <==> env[field].value[|env[field].value| - 1] != ' '))
  {
    var v :| env[field] == Sanitize(v);
    if env[field].Some? { SanitizedResent(v); }
  }

  /** Sanitising what was sanitised. */
  lemma SanitizedResent(v: Option<string>)
    requires Sanitize(v).Some?
    ensures var s := Sanitize(v).value;
            s != "" && Sanitize(Some(s)).Some? && (Sanitize(Some(s)) == Some(s) <==> s[|s| - 1] != ' ')
  {
    SanitizedShape(v);
    SanitizeKeepsExactlyClean(Sanitize(v).value);
    StripNotEmpty(Sanitize(v).value);
  }

  lemma StripNotEmpty(s: string)
    requires s != "" && AllPrintable(s) && s[0] != ' '
    ensures Sanitize(Some(s)).Some?
  {
    KeepPrintableFacts(s);
    assert StripLeft(s) == s;
    NonBlankStays(s);
  }

  lemma {:induction false} NonBlankStays(s: string)
    requires s != "" && s[0] != ' '
    ensures StripRight(s) != ""
  {
    if s[|s| - 1] == ' ' { NonBlankStays(s[..|s| - 1]); }
  }

  // ---------------------------------------------------------------- the variables

  class ContextVars {
    var env: Env

    /** `set_context`. */
    method SetContext(values: seq<Binding>) returns (raised: bool)
      modifies this
      ensures Outcome(env, raised) == Assign(old(env), values)
    {
      var i := 0;
      while i < |values|
        invariant i <= |values| && Assign(env, values[i..]) == Assign(old(env), values)
      {
        if values[i].field !in env {
          return true;
        }
        env := env[values[i].field := Sanitize(values[i].value)];
        assert values[i..][1..] == values[i + 1..];
        i := i + 1;
      }
      return false;
    }

    /** The entering half of `bind_context`, collecting a token per assigned field. */
    method Enter(values: seq<Binding>) returns (raised: bool, tokens: seq<Token>)
      modifies this
      ensures Outcome(env, raised) == Assign(old(env), values) && tokens == Tokens(old(env), values)
    {
      tokens := [];
      var i := 0;
      while i < |values|
        invariant i <= |values| && Assign(env, values[i..]) == Assign(old(env), values)
        invariant tokens + Tokens(env, values[i..]) == Tokens(old(env), values)
      {
        if values[i].field !in env {
          return true, tokens;
        }
        tokens := tokens + [Token(values[i].field, env[values[i].field])];
        env := env[values[i].field := Sanitize(values[i].value)];
        assert values[i..][1..] == values[i + 1..];
        i := i + 1;
      }
      return false, tokens;
    }

    /** The `finally` half. */
    method Exit(tokens: seq<Token>)
      modifies this
      ensures env == Restore(old(env), tokens)
    {
      var i := |tokens|;
      assert tokens[..i] == tokens;
      while i > 0
        invariant 0 <= i <= |tokens| && Restore(env, tokens[..i]) == Restore(old(env), tokens)
      {
        i := i - 1;
        assert tokens[..i + 1][..i] == tokens[..i];
        env := env[tokens[i].field := tokens[i].previous];
      }
    }

    method Run(actions: seq<Action>) returns (raised: bool)
      modifies this
      ensures Outcome(env, raised) == Exec(old(env), actions)
      decreases actions
    {
      if actions == [] {
        return false;
      }
      match actions[0] {
        case Raise => raised := true;
        case Set(values) => raised := SetContext(values);
        case Bind(values, body) =>
          var tokens;
          raised, tokens := Enter(values);
          if !raised {
            raised := Run(body);
          }
          Exit(tokens);
      }
      if !raised {
        raised := Run(actions[1..]);
      }
    }
  }
}
