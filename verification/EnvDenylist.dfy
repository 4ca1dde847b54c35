/**
 The loader-variable denylist of job submission (internal/api/env_denylist.go): the parser
 for per-node exception rules, and the environment checks of the two submit paths. Go visits
 a map in an arbitrary order, so the checks take the visiting order as a parameter. Text is
 a sequence of Unicode characters.
 */
module EnvDenylist {
  import opened Wrappers
  import opened Text

  const MAX_ENV := 128

  predicate Blocked(key: string) {
    || HasPrefix(key, "LD_") || HasPrefix(key, "DYLD_")
    || key in {"GCONV_PATH", "GIO_EXTRA_MODULES", "HOSTALIASES", "NLSPATH", "RES_OPTIONS"}
  }

  datatype Rule = Rule(selectorKey: string, selectorValue: string, allowed: set<string>)

  datatype RuleError =
    | NoColon | NoEquals | EmptySelector | NulInSelector | NoKeys | EmptyKey | NotBlocked(key: string)

  // ---- The parser ---------------------------------------------------------------

  /** One env key between commas. */
  function KeyOf(piece: string): Result<string, RuleError> {
    var k := Trim(piece);
    if k == "" then Err(EmptyKey) else if !Blocked(k) then Err(NotBlocked(k)) else Ok(k)
  }

  /** The env keys after the colon, piece by piece; the first bad one stops the parse. */
  function KeysOf(pieces: seq<string>, parse: string -> Result<string, RuleError>): Result<set<string>, RuleError> {
    if pieces == [] then Ok({})
    else
      var first := parse(pieces[0]);
      if first.Err? then Err(first.error)
      else
        var rest := KeysOf(pieces[1..], parse);
        if rest.Err? then rest else Ok({first.value} + rest.value)
  }

  function RuleOf(rule: string): Result<Rule, RuleError> {
    var colon := IndexOf(rule, ':');
    if colon < 0 then Err(NoColon)
    else
      var selector, keys := Trim(rule[..colon]), Trim(rule[colon + 1..]);
      var eq := IndexOf(selector, '=');
      if eq < 0 then Err(NoEquals)
      else
        var k, v := Trim(selector[..eq]), Trim(selector[eq + 1..]);
        if k == "" || v == "" then Err(EmptySelector)
        else if '\0' in k || '\0' in v then Err(NulInSelector)
        else if keys == "" then Err(NoKeys)
        else
          var allowed := KeysOf(Split(keys, ','), KeyOf);
          if allowed.Err? then Err(allowed.error) else Ok(Rule(k, v, allowed.value))
  }

  /** The rule of one piece between semicolons; a blank piece is skipped. */
  function PieceOf(piece: string): Result<seq<Rule>, RuleError> {
    var text := Trim(piece);
    if text == "" then Ok([])
    else
      var rule := RuleOf(text);
      if rule.Err? then Err(rule.error) else Ok([rule.value])
  }

  /** The first bad piece stops the parse. */
  function RulesOf(pieces: seq<string>, parse: string -> Result<seq<Rule>, RuleError>): Result<seq<Rule>, RuleError> {
    if pieces == [] then Ok([])
    else
      var first := parse(pieces[0]);
      if first.Err? then first
      else
        var rest := RulesOf(pieces[1..], parse);
        if rest.Err? then rest else Ok(first.value + rest.value)
  }

  function Parsed(raw: string): Result<seq<Rule>, RuleError> {
    if Trim(raw) == "" then Ok([]) else RulesOf(Split(Trim(raw), ';'), PieceOf)
  }

  ghost predicate KeysSoFar(pieces: seq<string>, parse: string -> Result<string, RuleError>, i: nat,
                            allowed: set<string>)
    requires i <= |pieces|
  {
    var rest := KeysOf(pieces[i..], parse);
    KeysOf(pieces, parse) == if rest.Err? then rest else Ok(allowed + rest.value)
  }

  lemma KeysStart(pieces: seq<string>, parse: string -> Result<string, RuleError>)
    ensures KeysSoFar(pieces, parse, 0, {})
  {
    assert pieces[0..] == pieces;
    var all := KeysOf(pieces, parse);
    assert all.Ok? ==> {} + all.value == all.value;
  }

  lemma KeysStep(pieces: seq<string>, parse: string -> Result<string, RuleError>, i: nat, allowed: set<string>)
    requires i < |pieces| && KeysSoFar(pieces, parse, i, allowed)
    ensures var first := parse(pieces[i]);
            if first.Err? then KeysOf(pieces, parse) == Err(first.error)
              else KeysSoFar(pieces, parse, i + 1, allowed + {first.value})
  {
    var left := pieces[i..];
    assert left[0] == pieces[i] && left[1..] == pieces[i + 1..];
    var first, rest := parse(pieces[i]), KeysOf(pieces[i + 1..], parse);
    if first.Ok? && rest.Ok? {
      assert allowed + ({first.value} + rest.value) == allowed + {first.value} + rest.value;
    }
  }

  lemma KeysEnd(pieces: seq<string>, parse: string -> Result<string, RuleError>, allowed: set<string>)
    requires KeysSoFar(pieces, parse, |pieces|, allowed)
    ensures KeysOf(pieces, parse) == Ok(allowed)
  {
    assert pieces[|pieces|..] == [] && allowed + {} == allowed;
  }

  method ParseKeys(keys: string) returns (r: Result<set<string>, RuleError>)
    ensures r == KeysOf(Split(keys, ','), KeyOf)
  {
    var allowed: set<string> := {};
    var pieces := Split(keys, ',');
    KeysStart(pieces, KeyOf);
    for i := 0 to |pieces|
      invariant KeysSoFar(pieces, KeyOf, i, allowed)
    {
      KeysStep(pieces, KeyOf, i, allowed);
      var k := Trim(pieces[i]);
      if k == "" {
        return Err(EmptyKey);
      }
      if !Blocked(k) {
        return Err(NotBlocked(k));
      }
      allowed := allowed + {k};
    }
    KeysEnd(pieces, KeyOf, allowed);
    r := Ok(allowed);
  }

  method ParseRule(rule: string) returns (r: Result<Rule, RuleError>)
    ensures r == RuleOf(rule)
  {
    var colon := IndexOf(rule, ':');
    if colon < 0 {
      return Err(NoColon);
    }
    var selector, keys := Trim(rule[..colon]), Trim(rule[colon + 1..]);
    var eq := IndexOf(selector, '=');
    if eq < 0 {
      return Err(NoEquals);
    }
    var k, v := Trim(selector[..eq]), Trim(selector[eq + 1..]);
    if k == "" || v == "" {
      return Err(EmptySelector);
    }
    if '\0' in k || '\0' in v {
      return Err(NulInSelector);
    }
    if keys == "" {
      return Err(NoKeys);
    }
    var allowed := ParseKeys(keys);
    r := if allowed.Err? then Err(allowed.error) else Ok(Rule(k, v, allowed.value));
  }

  ghost predicate RulesSoFar(pieces: seq<string>, parse: string -> Result<seq<Rule>, RuleError>, i: nat, out: seq<Rule>)
    requires i <= |pieces|
  {
    var rest := RulesOf(pieces[i..], parse);
    RulesOf(pieces, parse) == if rest.Err? then rest else Ok(out + rest.value)
  }

  lemma RulesStart(pieces: seq<string>, parse: string -> Result<seq<Rule>, RuleError>)
    ensures RulesSoFar(pieces, parse, 0, [])
  {
    assert pieces[0..] == pieces;
    var all := RulesOf(pieces, parse);
    assert all.Ok? ==> [] + all.value == all.value;
  }

  lemma RulesStep(pieces: seq<string>, parse: string -> Result<seq<Rule>, RuleError>, i: nat, out: seq<Rule>)
    requires i < |pieces| && RulesSoFar(pieces, parse, i, out)
    ensures var first := parse(pieces[i]);
            if first.Err? then RulesOf(pieces, parse) == first else RulesSoFar(pieces, parse, i + 1, out + first.value)
  {
    var left := pieces[i..];
    assert left[0] == pieces[i] && left[1..] == pieces[i + 1..];
    var first, rest := parse(pieces[i]), RulesOf(pieces[i + 1..], parse);
    if first.Ok? && rest.Ok? {
      assert out + (first.value + rest.value) == out + first.value + rest.value;
    }
  }

  lemma RulesEnd(pieces: seq<string>, parse: string -> Result<seq<Rule>, RuleError>, out: seq<Rule>)
    requires RulesSoFar(pieces, parse, |pieces|, out)
    ensures RulesOf(pieces, parse) == Ok(out)
  {
    assert pieces[|pieces|..] == [] && out + [] == out;
  }

  method ParseRules(pieces: seq<string>) returns (r: Result<seq<Rule>, RuleError>)
    ensures r == RulesOf(pieces, PieceOf)
  {
    var out: seq<Rule> := [];
    RulesStart(pieces, PieceOf);
    for i := 0 to |pieces|
      invariant RulesSoFar(pieces, PieceOf, i, out)
    {
      RulesStep(pieces, PieceOf, i, out);
      var text := Trim(pieces[i]);
      if text == "" {
        assert out + [] == out;
        continue;
      }
      var rule := ParseRule(text);
      if rule.Err? {
        return Err(rule.error);
      }
      out := out + [rule.value];
    }
    RulesEnd(pieces, PieceOf, out);
    r := Ok(out);
  }

  method ParseEnvDenylistExceptions(raw: string) returns (r: Result<seq<Rule>, RuleError>)
    ensures r == Parsed(raw)
    ensures r.Ok? ==> forall rule :: rule in r.value ==> WellFormed(rule)
  {
    ParsedIsWellFormed(raw);
    var text := Trim(raw);
    if text == "" {
      return Ok([]);
    }
    r := ParseRules(Split(text, ';'));
  }

  // ---- Printing and parsing are inverse -------------------------------------------

  predicate WellFormed(rule: Rule) {
    && WellFormedKey(rule.selectorKey) && WellFormedValue(rule.selectorValue)
    && rule.allowed != {} && forall k :: k in rule.allowed ==> WellFormedEnvKey(k)
  }

  predicate WellFormedValue(v: string) {
    v != "" && Trimmed(v) && ':' !in v && ';' !in v && '\0' !in v
  }

  predicate WellFormedKey(k: string) {
    WellFormedValue(k) && '=' !in k
  }

  predicate WellFormedEnvKey(k: string) {
    Blocked(k) && k != "" && Trimmed(k) && ',' !in k && ';' !in k
  }

  lemma {:induction false} KeysAreWellFormed(pieces: seq<string>)
    requires forall piece :: piece in pieces ==> ',' !in piece && ';' !in piece
    ensures KeysOf(pieces, KeyOf).Ok? ==> forall k :: k in KeysOf(pieces, KeyOf).value ==> WellFormedEnvKey(k)
    ensures KeysOf(pieces, KeyOf).Ok? && pieces != [] ==> KeysOf(pieces, KeyOf).value != {}
    decreases |pieces|
  {
    if pieces == [] {
    } else {
      assert pieces[0] in pieces;
      TrimLacks(pieces[0], ',');
      TrimLacks(pieces[0], ';');
      KeysAreWellFormed(pieces[1..]);
    }
  }

  lemma PartIsWellFormed(selector: string, part: string)
    requires ':' !in selector && ';' !in selector && forall c :: c in part ==> c in selector
    ensures Trim(part) != "" && '\0' !in Trim(part) ==> WellFormedValue(Trim(part))
  {
    TrimLacks(part, ':');
    TrimLacks(part, ';');
  }

  lemma RuleIsWellFormed(rule: string)
    requires ';' !in rule
    ensures RuleOf(rule).Ok? ==> WellFormed(RuleOf(rule).value)
  {
    if RuleOf(rule).Ok? {
      var colon := IndexOf(rule, ':');
      var selector, keys := Trim(rule[..colon]), Trim(rule[colon + 1..]);
      var eq := IndexOf(selector, '=');
      TrimLacks(rule[colon + 1..], ';');
      TrimLacks(rule[..colon], ';');
      TrimLacks(rule[..colon], ':');
      TrimLacks(selector[..eq], '=');
      PartIsWellFormed(selector, selector[..eq]);
      PartIsWellFormed(selector, selector[eq + 1..]);
      SplitPieces(keys, ',');
      assert forall piece :: piece in Split(keys, ',') ==> Piece(piece, keys, ',');
      KeysAreWellFormed(Split(keys, ','));
    }
  }

  lemma {:induction false} RulesAreWellFormed(pieces: seq<string>)
    requires forall piece :: piece in pieces ==> ';' !in piece
    ensures RulesOf(pieces, PieceOf).Ok? ==> forall rule :: rule in RulesOf(pieces, PieceOf).value ==> WellFormed(rule)
    decreases |pieces|
  {
    if pieces == [] {
    } else {
      assert pieces[0] in pieces;
      TrimLacks(pieces[0], ';');
      RuleIsWellFormed(Trim(pieces[0]));
      RulesAreWellFormed(pieces[1..]);
    }
  }

  lemma ParsedIsWellFormed(raw: string)
    ensures Parsed(raw).Ok? ==> forall rule :: rule in Parsed(raw).value ==> WellFormed(rule)
  {
    SplitPieces(Trim(raw), ';');
    assert forall piece :: piece in Split(Trim(raw), ';') ==> Piece(piece, Trim(raw), ';');
    RulesAreWellFormed(Split(Trim(raw), ';'));
  }

  /** One spelling of a rule: its keys in the given order. */
  function Printed(rule: Rule, order: seq<string>): string {
    rule.selectorKey + "=" + rule.selectorValue + ":" + Join(order, ',')
  }

  ghost predicate Lists(order: seq<string>, keys: set<string>) {
    order != [] && forall k :: k in order <==> k in keys
  }

  function PrintedAll(rules: seq<Rule>, orders: seq<seq<string>>): (texts: seq<string>)
    requires |rules| == |orders|
    ensures |texts| == |rules|
  {
    seq(|rules|, i requires 0 <= i < |rules| => Printed(rules[i], orders[i]))
  }

  lemma {:induction false} KeysReadBack(order: seq<string>)
    requires forall k :: k in order ==> WellFormedEnvKey(k)
    ensures KeysOf(order, KeyOf) == Ok(set k | k in order)
    decreases |order|
  {
    if order == [] {
      assert (set k | k in order) == {};
    } else {
      assert order[0] in order && order == [order[0]] + order[1..];
      KeysReadBack(order[1..]);
      assert WellFormedEnvKey(order[0]);
      assert KeysOf(order, KeyOf) == Ok({order[0]} + set k | k in order[1..]);
      assert (set k | k in order) == {order[0]} + set k | k in order[1..];
    }
  }

  lemma KeyListReadsBack(order: seq<string>, keys: set<string>)
    requires Lists(order, keys) && forall k :: k in keys ==> WellFormedEnvKey(k)
    ensures var text := Join(order, ',');
            text != "" && Trimmed(text) && ';' !in text && KeysOf(Split(text, ','), KeyOf) == Ok(keys)
  {
    JoinLacks(order, ',', ';');
    JoinTrimmed(order, ',');
    SplitJoin(order, ',');
    KeysReadBack(order);
    assert (set x | x in order) == keys;
  }

  lemma SelectorReadsBack(k: string, v: string)
    requires WellFormedKey(k) && WellFormedValue(v)
    ensures var selector := k + "=" + v;
            && Trimmed(selector) && ':' !in selector && ';' !in selector
            && IndexOf(selector, '=') == |k| && selector[..|k|] == k && selector[|k| + 1..] == v
  {
    IndexOfJoin(k, '=', v);
    TrimmedAround(k, "=", v);
  }

  lemma TextReadsBack(text: string, selector: string, keys: string)
    requires text == selector + ":" + keys && selector != "" && keys != ""
    requires Trimmed(selector) && ':' !in selector && Trimmed(keys)
    ensures IndexOf(text, ':') == |selector| && text[..|selector|] == selector && text[|selector| + 1..] == keys
    ensures text != "" && Trimmed(text)
  {
    IndexOfJoin(selector, ':', keys);
    TrimmedAround(selector, ":", keys);
  }

  lemma RuleReadsBack(rule: Rule, order: seq<string>)
    requires WellFormed(rule) && Lists(order, rule.allowed)
    ensures RuleOf(Printed(rule, order)) == Ok(rule)
    ensures Printed(rule, order) != "" && Trimmed(Printed(rule, order)) && ';' !in Printed(rule, order)
  {
    var selector, keys := rule.selectorKey + "=" + rule.selectorValue, Join(order, ',');
    KeyListReadsBack(order, rule.allowed);
    SelectorReadsBack(rule.selectorKey, rule.selectorValue);
    TextReadsBack(Printed(rule, order), selector, keys);
  }

  lemma {:induction false} RulesReadBack(texts: seq<string>, parse: string -> Result<seq<Rule>, RuleError>,
                                         rules: seq<Rule>)
    requires |texts| == |rules|
    requires forall i :: 0 <= i < |rules| ==> parse(texts[i]) == Ok([rules[i]])
    ensures RulesOf(texts, parse) == Ok(rules)
    decreases |rules|
  {
    if rules == [] {
    } else {
      RulesReadBack(texts[1..], parse, rules[1..]);
      assert rules == [rules[0]] + rules[1..];
    }
  }

  /** Any printing of well-formed rules, whatever order each one's keys are printed in, parses to those rules. */
  lemma PrintThenParse(rules: seq<Rule>, orders: seq<seq<string>>)
    requires |rules| == |orders|
    requires forall i :: 0 <= i < |rules| ==> WellFormed(rules[i]) && Lists(orders[i], rules[i].allowed)
    ensures Parsed(Join(PrintedAll(rules, orders), ';')) == Ok(rules)
  {
    var texts := PrintedAll(rules, orders);
    if rules != [] {
      forall i | 0 <= i < |texts|
        ensures texts[i] != "" && Trimmed(texts[i]) && ';' !in texts[i] && RuleOf(texts[i]) == Ok(rules[i])
      {
        RuleReadsBack(rules[i], orders[i]);
      }
      JoinTrimmed(texts, ';');
      SplitJoin(texts, ';');
      RulesReadBack(texts, PieceOf, rules);
    }
  }

  /** One printing order for the keys of each rule. */
  ghost predicate Fit(orders: seq<seq<string>>, rules: seq<Rule>) {
    |orders| == |rules| && forall i :: 0 <= i < |rules| ==> Lists(orders[i], rules[i].allowed)
  }

  /** So re-printing what was parsed loses nothing. */
  lemma ParsePrintParse(raw: string, orders: seq<seq<string>>)
    ensures var parsed := Parsed(raw);
            parsed.Ok? && Fit(orders, parsed.value) ==> Parsed(Join(PrintedAll(parsed.value, orders), ';')) == parsed
  {
    var parsed := Parsed(raw);
    ParsedIsWellFormed(raw);
    if parsed.Ok? && Fit(orders, parsed.value) {
      PrintThenParse(parsed.value, orders);
    }
  }

  lemma {:induction false} SomeOrder(keys: set<string>) returns (order: seq<string>)
    ensures forall k :: k in order <==> k in keys
  {
    order := [];
    if k :| k in keys {
      order := SomeOrder(keys - {k});
      order := order + [k];
    }
  }

  lemma {:induction false} SomeOrders(rules: seq<Rule>) returns (orders: seq<seq<string>>)
    requires forall rule :: rule in rules ==> WellFormed(rule)
    ensures |orders| == |rules| && forall i :: 0 <= i < |rules| ==> Lists(orders[i], rules[i].allowed)
    decreases |rules|
  {
    orders := [];
    if rules == [] {
    } else {
      assert rules[0] in rules;
      var rest := SomeOrders(rules[1..]);
      var order := SomeOrder(rules[0].allowed);
      orders := [order] + rest;
    }
  }

  /** The configurations that can be written down are exactly the well-formed ones. */
  lemma ParsableIff(rules: seq<Rule>)
    ensures (exists raw :: Parsed(raw) == Ok(rules)) <==> forall rule :: rule in rules ==> WellFormed(rule)
  {
    if raw :| Parsed(raw) == Ok(rules) {
      ParsedIsWellFormed(raw);
    }
    if forall rule :: rule in rules ==> WellFormed(rule) {
      var orders := SomeOrders(rules);
      PrintThenParse(rules, orders);
    }
  }

  // ---- The environment checks ------------------------------------------------------

  predicate Applies(rule: Rule, selector: map<string, string>) {
    rule.selectorKey in selector && selector[rule.selectorKey] == rule.selectorValue
  }

  predicate AllowedByException(key: string, selector: map<string, string>, rules: seq<Rule>) {
    Blocked(key) && exists rule :: rule in rules && Applies(rule, selector) && key in rule.allowed
  }

  datatype EnvError =
    | TooMany
    | EmptyEnvKey
    | BadEnvKey
    | NulInValue
    | Denied(key: string)

  datatype EnvResult = EnvResult(err: Option<EnvError>, overridden: seq<string>)

  predicate BadKey(k: string) {
    '=' in k || '\0' in k
  }

  /** Go may visit the keys of env in this order. */
  ghost predicate Visits(order: seq<string>, env: map<string, string>) {
    && (forall i, j :: 0 <= i < j < |order| ==> order[i] != order[j])
    && forall k :: k in order <==> k in env
  }

  predicate ShapeOk(k: string, v: string) {
    k != "" && !BadKey(k) && '\0' !in v
  }

  predicate EntryOk(k: string, v: string, selector: map<string, string>, rules: seq<Rule>) {
    ShapeOk(k, v) && (Blocked(k) ==> AllowedByException(k, selector, rules))
  }

  /** The variables that make a loader, a resolver or a module system run foreign code. */
  ghost predicate LoaderKey(k: string) {
    || (|k| >= 3 && k[0] == 'L' && k[1] == 'D' && k[2] == '_')
    || (|k| >= 5 && k[0] == 'D' && k[1] == 'Y' && k[2] == 'L' && k[3] == 'D' && k[4] == '_')
    || k == "GCONV_PATH" || k == "GIO_EXTRA_MODULES" || k == "HOSTALIASES" || k == "NLSPATH" || k == "RES_OPTIONS"
  }

  lemma BlockedIff(k: string)
    ensures Blocked(k) <==> LoaderKey(k)
  {
    assert |k| >= 3 ==> (k[..3] == "LD_" <==> k[0] == 'L' && k[1] == 'D' && k[2] == '_');
    assert |k| >= 5 ==>
             (k[..5] == "DYLD_" <==> k[0] == 'D' && k[1] == 'Y' && k[2] == 'L' && k[3] == 'D' && k[4] == '_');
  }

  /** The job is pinned to a label whose rule lists the key. */
  ghost predicate Excepted(k: string, selector: map<string, string>, rules: seq<Rule>) {
    exists rule :: rule in rules && rule.selectorKey in selector && k in rule.allowed
                   && selector[rule.selectorKey] == rule.selectorValue
  }

  lemma ExceptionIff(k: string, selector: map<string, string>, rules: seq<Rule>)
    ensures AllowedByException(k, selector, rules) <==> LoaderKey(k) && Excepted(k, selector, rules)
  {
    BlockedIff(k);
    if AllowedByException(k, selector, rules) {
      var rule :| rule in rules && Applies(rule, selector) && k in rule.allowed;
      assert rule.selectorKey in selector && selector[rule.selectorKey] == rule.selectorValue;
    }
    if LoaderKey(k) && Excepted(k, selector, rules) {
      var rule :| rule in rules && rule.selectorKey in selector && k in rule.allowed
                  && selector[rule.selectorKey] == rule.selectorValue;
      assert Applies(rule, selector);
    }
  }

  ghost predicate Harmless(k: string, v: string, selector: map<string, string>, rules: seq<Rule>) {
    && k != "" && '=' !in k && '\0' !in k && '\0' !in v
    && (LoaderKey(k) ==> Excepted(k, selector, rules))
  }

  lemma HarmlessIff(k: string, v: string, selector: map<string, string>, rules: seq<Rule>)
    ensures EntryOk(k, v, selector, rules) <==> Harmless(k, v, selector, rules)
  {
    BlockedIff(k);
    ExceptionIff(k, selector, rules);
  }

  /** What the two submit paths are meant to let through. */
  ghost predicate Acceptable(env: map<string, string>, selector: map<string, string>, rules: seq<Rule>) {
    |env| <= 128 && forall k :: k in env ==> Harmless(k, env[k], selector, rules)
  }

  lemma AcceptableIff(env: map<string, string>, selector: map<string, string>, rules: seq<Rule>)
    ensures Acceptable(env, selector, rules) <==>
              |env| <= MAX_ENV && forall k :: k in env ==> EntryOk(k, env[k], selector, rules)
  {
    forall k | k in env ensures EntryOk(k, env[k], selector, rules) <==> Harmless(k, env[k], selector, rules) {
      HarmlessIff(k, env[k], selector, rules);
    }
  }

  ghost predicate Justified(e: EnvError, env: map<string, string>, selector: map<string, string>, rules: seq<Rule>) {
    match e
    case TooMany => |env| > 128
    case EmptyEnvKey => "" in env
    case BadEnvKey => exists k :: k in env && ('=' in k || '\0' in k)
    case NulInValue => exists k :: k in env && '\0' in env[k]
    case Denied(k) => k in env && LoaderKey(k) && !Excepted(k, selector, rules)
  }

  /** The overridden keys to audit: each blocked key once. */
  ghost predicate Audits(overridden: seq<string>, env: map<string, string>) {
    && (forall i, j :: 0 <= i < j < |overridden| ==> overridden[i] != overridden[j])
    && forall k :: k in overridden <==> k in env && LoaderKey(k)
  }

  ghost predicate AuditsUpTo(overridden: seq<string>, order: seq<string>, n: nat)
    requires n <= |order|
  {
    && (forall i, j :: 0 <= i < j < |overridden| ==> overridden[i] != overridden[j])
    && forall k :: k in overridden <==> k in order[..n] && Blocked(k)
  }

  lemma AuditNext(overridden: seq<string>, order: seq<string>, n: nat)
    requires n < |order| && forall i, j :: 0 <= i < j < |order| ==> order[i] != order[j]
    requires AuditsUpTo(overridden, order, n)
    ensures AuditsUpTo(if Blocked(order[n]) then overridden + [order[n]] else overridden, order, n + 1)
  {
    assert order[..n + 1] == order[..n] + [order[n]];
  }

  /** What an error says about the entry it was raised for. */
  ghost predicate Faults(e: EnvError, k: string, v: string, selector: map<string, string>, rules: seq<Rule>) {
    match e
    case TooMany => false
    case EmptyEnvKey => k == ""
    case BadEnvKey => BadKey(k)
    case NulInValue => '\0' in v
    case Denied(key) => key == k && Blocked(k) && !AllowedByException(k, selector, rules)
  }

  lemma FaultIsJustified(e: EnvError, k: string, env: map<string, string>, selector: map<string, string>,
                         rules: seq<Rule>)
    requires k in env && Faults(e, k, env[k], selector, rules)
    ensures Justified(e, env, selector, rules) && !EntryOk(k, env[k], selector, rules)
  {
    ExceptionIff(k, selector, rules);
    BlockedIff(k);
  }

  method CheckEntry(k: string, v: string, selector: map<string, string>, rules: seq<Rule>)
    returns (err: Option<EnvError>)
    ensures err.None? <==> EntryOk(k, v, selector, rules)
    ensures err.Some? ==> Faults(err.value, k, v, selector, rules)
  {
    if k == "" {
      return Some(EmptyEnvKey);
    }
    if BadKey(k) {
      return Some(BadEnvKey);
    }
    if '\0' in v {
      return Some(NulInValue);
    }
    if Blocked(k) && !AllowedByException(k, selector, rules) {
      return Some(Denied(k));
    }
    err := None;
  }

  /** Whatever the visiting order: the verdict, a true reason when refused, and the same keys to audit when accepted. */
  method ValidateEnvMap(env: map<string, string>, order: seq<string>, selector: map<string, string>, rules: seq<Rule>)
    returns (r: EnvResult)
    requires Visits(order, env)
    ensures r.err.None? <==> Acceptable(env, selector, rules)
    ensures r.err.Some? ==> Justified(r.err.value, env, selector, rules)
    ensures r.err.None? ==> Audits(r.overridden, env)
  {
    if |env| > MAX_ENV {
      return EnvResult(Some(TooMany), []);
    }
    r := WalkEntries(env, order, selector, rules);
  }

  ghost predicate Walked(r: EnvResult, env: map<string, string>, order: seq<string>, selector: map<string, string>,
                         rules: seq<Rule>, n: nat)
    requires n <= |order| && forall k :: k in order ==> k in env
  {
    if r.err.Some? then n < |order| && Faults(r.err.value, order[n], env[order[n]], selector, rules)
    else AuditsUpTo(r.overridden, order, n) && forall j :: 0 <= j < n ==>
      EntryOk(order[j], env[order[j]], selector, rules)
  }

  /** The loop over the entries, which stops at the first fault. */
  method WalkEntries(env: map<string, string>, order: seq<string>, selector: map<string, string>, rules: seq<Rule>)
    returns (r: EnvResult)
    requires Visits(order, env) && |env| <= MAX_ENV
    ensures r.err.None? <==> Acceptable(env, selector, rules)
    ensures r.err.Some? ==> Justified(r.err.value, env, selector, rules)
    ensures r.err.None? ==> Audits(r.overridden, env)
  {
    r := EnvResult(None, []);
    var i := 0;
    while i < |order| && r.err.None?
      invariant 0 <= i <= |order| && Walked(r, env, order, selector, rules, i)
      decreases |order| - i, r.err.None?
    {
      var k := order[i];
      var err := CheckEntry(k, env[k], selector, rules);
      if err.Some? {
        r := r.(err := err);
      } else {
        AuditNext(r.overridden, order, i);
        if Blocked(k) {
          r := r.(overridden := r.overridden + [k]);
        }
        i := i + 1;
      }
    }
    AcceptableIff(env, selector, rules);
    if r.err.Some? {
      FaultIsJustified(r.err.value, order[i], env, selector, rules);
    } else {
      AllVisited(env, order, r.overridden, selector, rules);
    }
  }

  lemma AllVisited(env: map<string, string>, order: seq<string>, overridden: seq<string>, selector: map<string, string>,
                   rules: seq<Rule>)
    requires Visits(order, env) && |env| <= MAX_ENV && AuditsUpTo(overridden, order, |order|)
    requires forall j :: 0 <= j < |order| ==> EntryOk(order[j], env[order[j]], selector, rules)
    ensures Acceptable(env, selector, rules) && Audits(overridden, env)
  {
    assert order[..|order|] == order;
    forall k | k in env ensures EntryOk(k, env[k], selector, rules) {
      var j :| 0 <= j < |order| && order[j] == k;
    }
    AcceptableIff(env, selector, rules);
    AuditedIff(overridden, order, env);
  }

  lemma AuditedIff(overridden: seq<string>, order: seq<string>, env: map<string, string>)
    requires Visits(order, env) && AuditsUpTo(overridden, order, |order|)
    ensures Audits(overridden, env)
  {
    assert order[..|order|] == order;
    forall k ensures Blocked(k) <==> LoaderKey(k) {
      BlockedIff(k);
    }
  }

  /** The environment part of validateSubmitRequest. */
  method CheckShape(env: map<string, string>, order: seq<string>) returns (err: Option<EnvError>)
    requires Visits(order, env)
    ensures err.None? <==>
              |env| <= 128 && forall k :: k in env ==> k != "" && '=' !in k && '\0' !in k && '\0' !in env[k]
    ensures err.Some? ==> !err.value.Denied? && Justified(err.value, env, map[], [])
  {
    if |env| > MAX_ENV {
      return Some(TooMany);
    }
    for i := 0 to |order|
      invariant forall j :: 0 <= j < i ==> ShapeOk(order[j], env[order[j]])
    {
      var k := order[i];
      assert k in env;
      if k == "" {
        return Some(EmptyEnvKey);
      }
      if BadKey(k) {
        return Some(BadEnvKey);
      }
      if '\0' in env[k] {
        return Some(NulInValue);
      }
    }
    err := None;
  }

  method DenylistOnly(env: map<string, string>, order: seq<string>, selector: map<string, string>, rules: seq<Rule>)
    returns (r: EnvResult)
    requires Visits(order, env)
    ensures r.err.None? <==> forall k :: k in env && LoaderKey(k) ==> Excepted(k, selector, rules)
    ensures r.err.Some? ==> r.err.value.Denied? && Justified(r.err.value, env, selector, rules)
    ensures r.err.None? ==> Audits(r.overridden, env)
  {
    r := EnvResult(None, []);
    for i := 0 to |order|
      invariant r.err.None? && AuditsUpTo(r.overridden, order, i)
      invariant forall j :: 0 <= j < i && LoaderKey(order[j]) ==> Excepted(order[j], selector, rules)
    {
      var k := order[i];
      AuditNext(r.overridden, order, i);
      BlockedIff(k);
      ExceptionIff(k, selector, rules);
      if !Blocked(k) {
        continue;
      }
      if !AllowedByException(k, selector, rules) {
        return r.(err := Some(Denied(k)));
      }
      r := r.(overridden := r.overridden + [k]);
    }
    AuditedIff(r.overridden, order, env);
  }

  /**
   * The other submit path, shape checks and then the denylist, each with its own visiting order: it accepts the same
   * maps and audits the same keys.
   */
  method CheckInTwoPasses(env: map<string, string>, order: seq<string>, order': seq<string>,
                          selector: map<string, string>, rules: seq<Rule>)
    returns (r: EnvResult)
    requires Visits(order, env) && Visits(order', env)
    ensures r.err.None? <==> Acceptable(env, selector, rules)
    ensures r.err.Some? ==> Justified(r.err.value, env, selector, rules)
    ensures r.err.None? ==> Audits(r.overridden, env)
  {
    var err := CheckShape(env, order);
    if err.Some? {
      return EnvResult(err, []);
    }
    r := DenylistOnly(env, order', selector, rules);
  }

  /** What a rule without its separators, and a bad key, are refused for. */
  lemma RefusedFor(rule: string, piece: string)
    ensures RuleOf(rule) == Err(NoColon) <==> ':' !in rule
    ensures RuleOf(rule) == Err(NoEquals) <==> ':' in rule && '=' !in Trim(rule[..IndexOf(rule, ':')])
    ensures KeyOf(piece) == Err(EmptyKey) <==> Trim(piece) == ""
    ensures KeyOf(piece) == Err(NotBlocked(Trim(piece))) <==> Trim(piece) != "" && !LoaderKey(Trim(piece))
    ensures KeyOf(piece).Ok? ==> KeyOf(piece).value == Trim(piece)
  {
    BlockedIff(Trim(piece));
    if ':' in rule {
      KeysErrOnlyKeys(Split(Trim(rule[IndexOf(rule, ':') + 1..]), ','));
    }
  }

  lemma {:induction false} KeysErrOnlyKeys(pieces: seq<string>)
    ensures var r := KeysOf(pieces, KeyOf); r.Err? ==> r.error.EmptyKey? || r.error.NotBlocked?
    decreases |pieces|
  {
    if pieces != [] {
      KeysErrOnlyKeys(pieces[1..]);
    }
  }

  /** Blank pieces between the semicolons make no difference. */
  lemma {:induction false} BlankRulesAreSkipped(before: seq<string>, piece: string, after: seq<string>)
    requires Trim(piece) == ""
    ensures RulesOf(before + [piece] + after, PieceOf) == RulesOf(before + after, PieceOf)
    decreases |before|
  {
    var with, without := before + [piece] + after, before + after;
    if before == [] {
      assert with[1..] == after && without == after;
      var rest := RulesOf(after, PieceOf);
      assert rest.Ok? ==> [] + rest.value == rest.value;
    } else {
      assert with[1..] == before[1..] + [piece] + after && without[1..] == before[1..] + after;
      BlankRulesAreSkipped(before[1..], piece, after);
    }
  }

  /**
   * The configured text decides: a well-formed rule in it lets its keys through on nodes with its label, and nothing
   * else does.
   */
  lemma OverrideNeedsARule(raw: string, selector: map<string, string>, key: string)
    ensures Parsed(raw).Ok? ==>
              (AllowedByException(key, selector, Parsed(raw).value) <==>
                LoaderKey(key) && Excepted(key, selector, Parsed(raw).value))
    ensures Parsed(raw).Ok? ==> forall rule :: rule in Parsed(raw).value ==> WellFormed(rule)
  {
    ParsedIsWellFormed(raw);
    if Parsed(raw).Ok? {
      ExceptionIff(key, selector, Parsed(raw).value);
    }
  }
}
