/** scripts/deploy/predict-addresses.js: one set of constructor arguments for one identifier, or a refusal. */
module ConstructorArgs {
  import opened Literals
  import opened Results

  // ---------------------------------------------------------------- equality up to JSON form

  function Digits(n: nat): string {
    (if n < 10 then "" else Digits(n / 10)) + ["0123456789"[n % 10]]
  }

  /** String(v) of a BigInt. */
  function Decimal(i: int): string {
    if i < 0 then "-" + Digits(-i) else Digits(i)
  }

  /** An object never comes from an argument list of ours, but a record may hold one. */
  datatype Json =
    | JText(s: string)
    | JNumber(r: real)
    | JBool(b: bool)
    | JList(items: seq<Json>)
    | JNull
    | JObject(members: seq<(string, Json)>)

  /** JSON.stringify with the replacer that turns a BigInt into a string. */
  function Form(v: Value): Json
    decreases v
  {
    match v
    case Text(s) => JText(s)
    case Numeric(n) =>
      (match n
       case Finite(r) => JNumber(r)
       case NegativeZero => JNumber(0.0)
       case _ => JNull)
    case BigInt(i) => JText(Decimal(i))
    case Boolean(b) => JBool(b)
    case List(items) => JList(Forms(items))
    case Opaque(_) => JNull
  }

  function Forms(vs: seq<Value>): (js: seq<Json>)
    ensures |js| == |vs|
    ensures forall i | 0 <= i < |vs| :: js[i] == Form(vs[i])
    decreases vs
  {
    if vs == [] then [] else [Form(vs[0])] + Forms(vs[1..])
  }

  /** What the JSON form cannot tell apart: the zeros, the infinities, and a BigInt and its decimal text. */
  predicate Same(v: Value, w: Value)
    decreases v
  {
    match v
    case Text(s) => w == v || (w.BigInt? && s == Decimal(w.i))
    case BigInt(i) => w == v || (w.Text? && w.s == Decimal(i))
    case Numeric(m) => w.Numeric? && (m == w.n || (m.Infinite? && w.n.Infinite?) || (IsZero(m) && IsZero(w.n)))
    case Boolean(_) => w == v
    case List(items) => w.List? && |items| == |w.items| && forall i | 0 <= i < |items| :: Same(items[i], w.items[i])
    case Opaque(_) => w == v
  }

  predicate IsZero(n: Number) {
    n == Finite(0.0) || n == NegativeZero
  }

  lemma {:induction false} DigitsInjective(m: nat, n: nat)
    requires Digits(m) == Digits(n)
    ensures m == n
  {
    assert Digits(m)[|Digits(m)| - 1] == "0123456789"[m % 10];
    assert Digits(n)[|Digits(n)| - 1] == "0123456789"[n % 10];
    assert m % 10 == n % 10;
    if m < 10 || n < 10 {
      DigitsLength(m);
      DigitsLength(n);
    } else {
      assert Digits(m / 10) == Digits(m)[..|Digits(m)| - 1];
      assert Digits(n / 10) == Digits(n)[..|Digits(n)| - 1];
      DigitsInjective(m / 10, n / 10);
    }
  }

  lemma DigitsLength(n: nat)
    ensures |Digits(n)| >= 1 && (|Digits(n)| == 1 <==> n < 10) && '0' <= Digits(n)[0] <= '9'
  {
    if n >= 10 {
      DigitsLength(n / 10);
    }
  }

  lemma DecimalInjective(i: int, j: int)
    requires Decimal(i) == Decimal(j)
    ensures i == j
  {
    var m, n := if i < 0 then -i else i, if j < 0 then -j else j;
    DigitsLength(m);
    DigitsLength(n);
    if i < 0 && j < 0 {
      assert Digits(m) == Decimal(i)[1..];
      assert Digits(n) == Decimal(j)[1..];
    }
    DigitsInjective(m, n);
  }

  /** The number a text of decimal digits spells. */
  function Spelled(s: string): int {
    if s == "" then 0 else 10 * Spelled(s[..|s| - 1]) + (s[|s| - 1] as int - '0' as int)
  }

  lemma DigitSpells(d: nat)
    requires d < 10
    ensures "0123456789"[d] as int - '0' as int == d
  {
  }

  lemma SpelledSnoc(s: string, c: char)
    ensures Spelled(s + [c]) == 10 * Spelled(s) + (c as int - '0' as int)
  {
    assert (s + [c])[..|s|] == s;
  }

  ghost predicate AllDigits(s: string) {
    forall i | 0 <= i < |s| :: '0' <= s[i] <= '9'
  }

  lemma DigitsSnoc(n: nat) returns (front: string, last: char)
    ensures Digits(n) == front + [last] && front == (if n < 10 then "" else Digits(n / 10))
    ensures '0' <= last <= '9' && last as int - '0' as int == n % 10
  {
    front, last := if n < 10 then "" else Digits(n / 10), "0123456789"[n % 10];
    DigitSpells(n % 10);
  }

  lemma {:induction false} DigitsSpell(n: nat)
    ensures AllDigits(Digits(n)) && Spelled(Digits(n)) == n && Digits(n) != ""
    ensures Digits(n)[0] == '0' <==> n == 0
  {
    var front, last := DigitsSnoc(n);
    SpelledSnoc(front, last);
    if n >= 10 {
      DigitsSpell(n / 10);
      assert Digits(n)[0] == front[0];
    }
  }

  /** The text of a BigInt spells it, behind a minus sign if it is negative, without a leading zero. */
  lemma DecimalExactly(i: int)
    ensures i >= 0 ==> Spelled(Decimal(i)) == i && (Decimal(i)[0] == '0' <==> i == 0)
    ensures i < 0 ==> Decimal(i)[0] == '-' && Spelled(Decimal(i)[1..]) == -i && Decimal(i)[1..] != ""
    ensures i < 0 ==> Decimal(i)[1] != '0'
  {
    if i >= 0 {
      DigitsSpell(i);
    } else {
      DigitsSpell(-i);
      assert Decimal(i)[1..] == Digits(-i);
    }
  }

  /** JSON.parse. */
  function Parse(j: Json): Value
    decreases j
  {
    match j
    case JText(s) => Text(s)
    case JNumber(r) => Numeric(Finite(r))
    case JBool(b) => Boolean(b)
    case JList(items) => List(ParseAll(items))
    case JNull => Opaque("null")
    case JObject(_) => Opaque("object")
  }

  function ParseAll(js: seq<Json>): (vs: seq<Value>)
    ensures |vs| == |js| && forall i | 0 <= i < |js| :: vs[i] == Parse(js[i])
    decreases js
  {
    if js == [] then [] else [Parse(js[0])] + ParseAll(js[1..])
  }

  /** What comes back for a plain value: itself, but for BigInts, the negative zero and the infinities. */
  ghost predicate ComesBack(v: Value, w: Value)
    decreases v
  {
    match v
    case BigInt(i) => w == Text(Decimal(i))
    case Numeric(NegativeZero) => w == Numeric(Finite(0.0))
    case Numeric(Infinite(_)) => w == Opaque("null")
    case List(items) =>
      w.List? && |w.items| == |items| && forall i | 0 <= i < |items| :: ComesBack(items[i], w.items[i])
    case _ => w == v
  }

  lemma {:induction false} FormComesBack(v: Value)
    requires Plain(v)
    ensures ComesBack(v, Parse(Form(v)))
    decreases v
  {
    if v.List? {
      forall i | 0 <= i < |v.items|
        ensures ComesBack(v.items[i], Parse(Form(v)).items[i])
      {
        FormComesBack(v.items[i]);
      }
    }
  }

  /** Two argument values have one JSON form exactly when they differ at most in these three ways. */
  lemma {:induction false} FormExactly(v: Value, w: Value)
    requires Plain(v) && Plain(w)
    ensures Form(v) == Form(w) <==> Same(v, w)
    decreases v
  {
    if v.BigInt? && w.BigInt? && Form(v) == Form(w) {
      DecimalInjective(v.i, w.i);
    }
    if v.List? && w.List? && |v.items| == |w.items| {
      forall i | 0 <= i < |v.items|
        ensures Form(v.items[i]) == Form(w.items[i]) <==> Same(v.items[i], w.items[i])
      {
        FormExactly(v.items[i], w.items[i]);
      }
    }
  }

  /** Whether JSON.stringify without the replacer would throw. */
  predicate HasBigInt(v: Value)
    decreases v
  {
    v.BigInt? || (v.List? && exists i | 0 <= i < |v.items| :: HasBigInt(v.items[i]))
  }

  // ---------------------------------------------------------------- call sites

  /** A deployDeterministic call: literal contract name, arguments, normalised salt text, salt variable. */
  datatype Call = Call(contract: Option<string>, args: Option<Expr>, salt: Option<string>, saltName: Option<string>)

  /** A parsed script: its calls, and for each declared name the normalised initialisers. */
  datatype Script = Unparsed | Script(calls: seq<Call>, inits: map<string, seq<string>>)

  datatype Occurrence = Occurrence(file: string, expression: string)

  function Filter(calls: seq<Call>, p: Call -> bool): seq<Call> {
    if calls == [] then []
    else Filter(calls[..|calls| - 1], p) + if p(calls[|calls| - 1]) then [calls[|calls| - 1]] else []
  }

  function Names(name: string): Call -> bool {
    (c: Call) => c.contract == Some(name)
  }

  function Direct(name: string, o: Occurrence): Call -> bool {
    (c: Call) => c.contract == Some(name) && c.salt == Some(o.expression)
  }

  function ViaName(name: string, o: Occurrence, inits: map<string, seq<string>>): Call -> bool {
    (c: Call) => c.contract == Some(name) && c.saltName.Some? && c.saltName.value in inits
                 && inits[c.saltName.value] == [o.expression]
  }

  /** The three kinds of evidence by the fields of a call. */
  lemma EvidenceExactly(c: Call, name: string, o: Occurrence, inits: map<string, seq<string>>)
    ensures Names(name)(c) <==> c.contract == Some(name)
    ensures Direct(name, o)(c) <==> c.contract == Some(name) && c.salt == Some(o.expression)
    ensures ViaName(name, o, inits)(c) <==>
            c.contract == Some(name) && exists v | v in inits :: c.saltName == Some(v) && inits[v] == [o.expression]
  {
  }

  function Locate(s: Script, o: Occurrence, name: string): Option<Call>
    requires s.Script?
  {
    var candidates := Filter(s.calls, Names(name));
    var direct := Filter(candidates, Direct(name, o));
    var viaName := Filter(candidates, ViaName(name, o, s.inits));
    if |candidates| == 0 then None
    else if |direct| == 1 then Some(direct[0])
    else if |viaName| == 1 then Some(viaName[0])
    else if |candidates| == 1 then Some(candidates[0])
    else None
  }

  /** `c` is the one call that fits. */
  ghost predicate Only(calls: seq<Call>, p: Call -> bool, c: Call) {
    exists k | 0 <= k < |calls| :: calls[k] == c && p(c) && forall j | 0 <= j < |calls| && p(calls[j]) :: j == k
  }

  lemma {:induction false} FilterNone(calls: seq<Call>, p: Call -> bool)
    ensures Filter(calls, p) == [] <==> forall j | 0 <= j < |calls| :: !p(calls[j])
  {
    if calls != [] {
      FilterNone(calls[..|calls| - 1], p);
    }
  }

  lemma SnocSingle(s: seq<Call>, last: Call, c: Call)
    ensures s + [last] == [c] <==> s == [] && last == c
  {
    if s + [last] == [c] {
      assert |s + [last]| == 1;
      assert (s + [last])[0] == last;
    }
  }

  lemma {:induction false} FilterOnly(calls: seq<Call>, p: Call -> bool, c: Call)
    ensures Filter(calls, p) == [c] <==> Only(calls, p, c)
  {
    if calls != [] {
      var front, last := calls[..|calls| - 1], calls[|calls| - 1];
      FilterNone(front, p);
      if p(last) {
        assert Filter(calls, p) == Filter(front, p) + [last];
        SnocSingle(Filter(front, p), last, c);
        assert calls[|calls| - 1] == last;
      } else {
        FilterOnly(front, p, c);
        assert Filter(calls, p) == Filter(front, p);
      }
    }
  }

  lemma {:induction false} FilterTwice(calls: seq<Call>, p: Call -> bool, q: Call -> bool)
    requires forall c :: q(c) ==> p(c)
    ensures Filter(Filter(calls, p), q) == Filter(calls, q)
  {
    if calls != [] {
      var front, last := calls[..|calls| - 1], calls[|calls| - 1];
      FilterTwice(front, p, q);
      if p(last) {
        assert (Filter(front, p) + [last])[..|Filter(front, p)|] == Filter(front, p);
      } else {
        assert Filter(calls, p) == Filter(front, p);
        assert Filter(calls, q) == Filter(front, q);
      }
    }
  }

  lemma SizeOne(s: seq<Call>)
    ensures |s| == 1 ==> s == [s[0]]
  {
  }

  /**
   * A call is found exactly when one kind of evidence singles it out: the salt expression itself, the
   * salt variable, or being the only call for the contract. The first kind that does so decides.
   */
  lemma LocateExactly(s: Script, o: Occurrence, name: string, c: Call)
    requires s.Script?
    ensures Locate(s, o, name) == Some(c) <==>
            || Only(s.calls, Direct(name, o), c)
            || ((forall d :: !Only(s.calls, Direct(name, o), d)) && Only(s.calls, ViaName(name, o, s.inits), c))
            || ((forall d :: !Only(s.calls, Direct(name, o), d) && !Only(s.calls, ViaName(name, o, s.inits), d))
                && Only(s.calls, Names(name), c))
  {
    FilterTwice(s.calls, Names(name), Direct(name, o));
    FilterTwice(s.calls, Names(name), ViaName(name, o, s.inits));
    forall d
      ensures Filter(s.calls, Direct(name, o)) == [d] <==> Only(s.calls, Direct(name, o), d)
      ensures Filter(s.calls, ViaName(name, o, s.inits)) == [d] <==> Only(s.calls, ViaName(name, o, s.inits), d)
      ensures Filter(s.calls, Names(name)) == [d] <==> Only(s.calls, Names(name), d)
    {
      FilterOnly(s.calls, Direct(name, o), d);
      FilterOnly(s.calls, ViaName(name, o, s.inits), d);
      FilterOnly(s.calls, Names(name), d);
    }
    SizeOne(Filter(s.calls, Direct(name, o)));
    SizeOne(Filter(s.calls, ViaName(name, o, s.inits)));
    SizeOne(Filter(s.calls, Names(name)));
    FilterEmpty(s.calls, Names(name), Direct(name, o));
    FilterEmpty(s.calls, Names(name), ViaName(name, o, s.inits));
  }

  lemma FilterEmpty(calls: seq<Call>, p: Call -> bool, q: Call -> bool)
    requires forall c :: q(c) ==> p(c)
    ensures Filter(calls, p) == [] ==> Filter(calls, q) == []
  {
    FilterNone(calls, p);
    FilterNone(calls, q);
  }

  // ---------------------------------------------------------------- resolution

  /** The arguments one occurrence supplies as literals, if it supplies any. */
  function SiteArgs(scripts: string -> Script, o: Occurrence, name: string): Option<seq<Value>> {
    var s := scripts(o.file);
    if s.Unparsed? then None
    else
      var call := Locate(s, o, name);
      if call.None? || call.value.args.None? then None
      else
        var v := LiteralValue(call.value.args.value);
        if v.Ok? && v.value.List? then Some(v.value.items) else None
  }

  /** An occurrence supplies arguments exactly when its call is found and its argument is a list of literals. */
  lemma SiteExactly(scripts: string -> Script, o: Occurrence, name: string, vs: seq<Value>)
    ensures SiteArgs(scripts, o, name) == Some(vs) <==>
            && scripts(o.file).Script?
            && exists c, e :: Locate(scripts(o.file), o, name) == Some(c) && c.args == Some(e)
                              && LiteralValue(e) == Ok(List(vs))
  {
  }

  /** Thrown is the TypeError of serialising a BigInt for the message about a disagreement. */
  datatype Resolved =
    | NoParameters
    | Agreed(values: seq<Value>, failures: nat)
    | Unsupplied
    | Differ
    | Thrown

  ghost predicate AllSame(vss: seq<seq<Value>>) {
    forall i, j | 0 <= i < |vss| && 0 <= j < |vss| :: Forms(vss[i]) == Forms(vss[j])
  }

  function ShapesOf(vss: seq<seq<Value>>): set<seq<Json>> {
    set i | 0 <= i < |vss| :: Forms(vss[i])
  }

  lemma OneShape(vss: seq<seq<Value>>)
    ensures |ShapesOf(vss)| > 1 <==> !AllSame(vss)
  {
    var shapes := ShapesOf(vss);
    if AllSame(vss) {
      if vss == [] {
        assert shapes == {};
      } else {
        assert shapes == {Forms(vss[0])};
      }
    } else {
      var i, j :| 0 <= i < |vss| && 0 <= j < |vss| && Forms(vss[i]) != Forms(vss[j]);
      var two := {Forms(vss[i]), Forms(vss[j])};
      assert two <= shapes && |two| == 2;
      assert shapes == two + (shapes - two);
    }
  }

  /** The literal arguments of all occurrences, in order. */
  function Supplied(scripts: string -> Script, os: seq<Occurrence>, name: string): seq<seq<Value>> {
    if os == [] then []
    else
      var v := SiteArgs(scripts, os[|os| - 1], name);
      Supplied(scripts, os[..|os| - 1], name) + if v.Some? then [v.value] else []
  }

  lemma {:induction false} SuppliedHas(scripts: string -> Script, os: seq<Occurrence>, name: string, i: nat)
    requires i < |os| && SiteArgs(scripts, os[i], name).Some?
    ensures SiteArgs(scripts, os[i], name).value in Supplied(scripts, os, name)
  {
    if i < |os| - 1 {
      SuppliedHas(scripts, os[..|os| - 1], name, i);
    }
  }

  /** The first of them are those of the first occurrence that supplies any. */
  lemma {:induction false} SuppliedFirst(scripts: string -> Script, os: seq<Occurrence>, name: string, i: nat)
    requires i < |os| && SiteArgs(scripts, os[i], name).Some?
    requires forall j | 0 <= j < i :: SiteArgs(scripts, os[j], name).None?
    ensures Supplied(scripts, os, name) != []
    ensures Supplied(scripts, os, name)[0] == SiteArgs(scripts, os[i], name).value
  {
    var front := os[..|os| - 1];
    if i < |os| - 1 {
      SuppliedFirst(scripts, front, name, i);
    } else {
      SuppliedNone(scripts, front, name);
    }
  }

  lemma {:induction false} SuppliedNone(scripts: string -> Script, os: seq<Occurrence>, name: string)
    requires forall j | 0 <= j < |os| :: SiteArgs(scripts, os[j], name).None?
    ensures Supplied(scripts, os, name) == []
  {
    if os != [] {
      SuppliedNone(scripts, os[..|os| - 1], name);
    }
  }

  lemma {:induction false} SuppliedFrom(scripts: string -> Script, os: seq<Occurrence>, name: string, vs: seq<Value>)
    returns (i: nat)
    requires vs in Supplied(scripts, os, name)
    ensures i < |os| && SiteArgs(scripts, os[i], name) == Some(vs)
  {
    i := |os| - 1;
    if SiteArgs(scripts, os[i], name) != Some(vs) {
      i := SuppliedFrom(scripts, os[..i], name, vs);
    }
  }

  /** resolveConstructorArgs: agreement of every occurrence that supplies literals, or a refusal. */
  method ResolveConstructorArgs(os: seq<Occurrence>, name: string, parameters: nat, scripts: string -> Script)
    returns (r: Resolved)
    ensures r.NoParameters? <==> parameters == 0
    ensures parameters > 0 ==>
            && var vss := Supplied(scripts, os, name);
            && (r.Unsupplied? <==> vss == [])
            && (r.Agreed? <==> vss != [] && AllSame(vss))
            && (r.Agreed? ==> r.values == vss[0] && r.failures == |os| - |vss|)
            && (r.Thrown? <==> !AllSame(vss) && exists i | 0 <= i < |vss| :: HasBigInt(List(vss[i])))
  {
    if parameters == 0 {
      return NoParameters;
    }
    var resolutions: seq<seq<Value>> := [];
    var failures := 0;
    for i := 0 to |os|
      invariant resolutions == Supplied(scripts, os[..i], name)
      invariant failures == i - |resolutions|
    {
      assert os[..i + 1][..i] == os[..i];
      var v := SiteArgs(scripts, os[i], name);
      if v.None? {
        failures := failures + 1;
      } else {
        resolutions := resolutions + [v.value];
      }
    }
    assert os[..|os|] == os;
    if resolutions == [] {
      return Unsupplied;
    }
    OneShape(resolutions);
    if |ShapesOf(resolutions)| > 1 {
      if exists i | 0 <= i < |resolutions| :: HasBigInt(List(resolutions[i])) {
        return Thrown;
      }
      return Differ;
    }
    r := Agreed(resolutions[0], failures);
  }

  /** The evaluator only produces plain values. */
  lemma {:induction false} LiteralPlain(e: Expr)
    requires LiteralValue(e).Ok?
    ensures Plain(LiteralValue(e).value)
    decreases e
  {
    match e
    case Unary(_, arg) => LiteralPlain(arg);
    case Array(elements) => LiteralsPlain(elements);
    case _ =>
  }

  lemma {:induction false} LiteralsPlain(es: seq<Expr>)
    requires LiteralValues(es).Ok?
    ensures forall i | 0 <= i < |LiteralValues(es).value| :: Plain(LiteralValues(es).value[i])
    decreases es
  {
    if es != [] {
      LiteralPlain(es[0]);
      LiteralsPlain(es[1..]);
    }
  }

  /**
   * Agreed arguments are what every supplying call site evaluates to, in every environment, up to
   * what a JSON form forgets.
   */
  lemma AgreedEverywhere(os: seq<Occurrence>, i: nat, name: string, scripts: string -> Script, env: Env)
    requires i < |os| && SiteArgs(scripts, os[i], name).Some?
    requires AllSame(Supplied(scripts, os, name))
    ensures Supplied(scripts, os, name) != []
    ensures exists ws :: Eval(Locate(scripts(os[i].file), os[i], name).value.args.value, env) == Some(List(ws))
                         && Same(List(ws), List(Supplied(scripts, os, name)[0]))
  {
    var vss := Supplied(scripts, os, name);
    var ws := SiteArgs(scripts, os[i], name).value;
    SuppliedHas(scripts, os, name, i);
    var k :| 0 <= k < |vss| && vss[k] == ws;
    LiteralSound(Locate(scripts(os[i].file), os[i], name).value.args.value, env);
    SitePlain(scripts, os[i], name);
    var j := SuppliedFrom(scripts, os, name, vss[0]);
    SitePlain(scripts, os[j], name);
    assert Forms(vss[k]) == Forms(vss[0]);
    FormExactly(List(ws), List(vss[0]));
  }

  lemma SitePlain(scripts: string -> Script, o: Occurrence, name: string)
    requires SiteArgs(scripts, o, name).Some?
    ensures Plain(List(SiteArgs(scripts, o, name).value))
  {
    LiteralPlain(Locate(scripts(o.file), o, name).value.args.value);
  }
}
