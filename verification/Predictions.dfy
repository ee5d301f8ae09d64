/**
 * scripts/deploy/predict-addresses.js: from resolved constructor arguments to a prediction, and what
 * serialising the predicted arguments without a replacer does.
 */
module Predictions {
  import opened ConstructorArgs
  import opened Literals
  import opened Results

  // ---------------------------------------------------------------- JSON.stringify without a replacer

  /** None is the TypeError a BigInt draws. */
  function Unreplaced(v: Value): Option<Json>
    decreases v
  {
    match v
    case BigInt(_) => None
    case List(items) =>
      var js := UnreplacedAll(items);
      if js.None? then None else Some(JList(js.value))
    case _ => Some(Form(v))
  }

  function UnreplacedAll(vs: seq<Value>): Option<seq<Json>>
    decreases vs
  {
    if vs == [] then Some([])
    else
      var j, rest := Unreplaced(vs[0]), UnreplacedAll(vs[1..]);
      if j.None? || rest.None? then None else Some([j.value] + rest.value)
  }

  ghost predicate SomeBigInt(vs: seq<Value>) {
    exists i | 0 <= i < |vs| :: HasBigInt(vs[i])
  }

  /** It fails exactly on a BigInt at any depth, and otherwise gives the form the replacer gives. */
  lemma {:induction false} UnreplacedExactly(v: Value)
    ensures Unreplaced(v) == if HasBigInt(v) then None else Some(Form(v))
    decreases v
  {
    if v.List? {
      UnreplacedAllExactly(v.items);
    }
  }

  lemma {:induction false} UnreplacedAllExactly(vs: seq<Value>)
    ensures UnreplacedAll(vs) == if SomeBigInt(vs) then None else Some(Forms(vs))
    decreases vs
  {
    if vs != [] {
      var rest := vs[1..];
      UnreplacedExactly(vs[0]);
      UnreplacedAllExactly(rest);
      assert forall i | 0 < i < |vs| :: vs[i] == rest[i - 1];
      assert SomeBigInt(vs) <==> HasBigInt(vs[0]) || SomeBigInt(rest) by {
        if SomeBigInt(rest) {
          var i :| 0 <= i < |rest| && HasBigInt(rest[i]);
          assert HasBigInt(vs[i + 1]);
        }
      }
    }
  }

  // ---------------------------------------------------------------- the arguments a prediction keeps

  /** A BigInt at the top becomes its text; one inside a list stays. */
  function Kept(vs: seq<Value>): (ks: seq<Value>)
    ensures |ks| == |vs|
    ensures forall i | 0 <= i < |vs| :: ks[i] == if vs[i].BigInt? then Text(Decimal(vs[i].i)) else vs[i]
  {
    seq(|vs|, i requires 0 <= i < |vs| => if vs[i].BigInt? then Text(Decimal(vs[i].i)) else vs[i])
  }

  ghost predicate NestedBigInt(vs: seq<Value>) {
    exists i | 0 <= i < |vs| :: vs[i].List? && HasBigInt(vs[i])
  }

  /** Serialising what a prediction keeps fails exactly when some argument is a list with a BigInt inside. */
  lemma KeptExactly(vs: seq<Value>)
    ensures UnreplacedAll(Kept(vs)) == if NestedBigInt(vs) then None else Some(Forms(vs))
  {
    var ks := Kept(vs);
    UnreplacedAllExactly(ks);
    if SomeBigInt(ks) {
      var i :| 0 <= i < |ks| && HasBigInt(ks[i]);
      assert vs[i].List? && HasBigInt(vs[i]);
    }
    if NestedBigInt(vs) {
      var i :| 0 <= i < |vs| && vs[i].List? && HasBigInt(vs[i]);
      assert HasBigInt(ks[i]);
    }
    assert Forms(ks) == Forms(vs) by {
      assert forall i | 0 <= i < |vs| :: Form(ks[i]) == Form(vs[i]);
    }
  }

  // ---------------------------------------------------------------- one prediction

  /** Broken is a thrown error, which ends the whole tool. */
  datatype Built = Broken | Unpredictable | Predicted(address: string, values: seq<Value>)

  /** The agreed arguments do not encode: the message about it serialises them without a replacer. */
  method Refuse(values: seq<Value>) returns (b: Built)
    ensures b == if SomeBigInt(values) then Broken else Unpredictable
  {
    UnreplacedAllExactly(values);
    b := if UnreplacedAll(values).None? then Broken else Unpredictable;
  }

  /**
   * buildPredictions for one group whose artifact is there: `create2` gives the address for arguments
   * that encode. Arguments with a BigInt are reported neither when sites differ nor when they do not encode.
   */
  method BuildPrediction(os: seq<Occurrence>, name: string, parameters: nat, scripts: string -> Script,
                         create2: seq<Value> -> Option<string>) returns (b: Built)
    ensures parameters == 0 ==>
            b == if create2([]).Some? then Predicted(create2([]).value, []) else Unpredictable
    ensures parameters > 0 ==>
            && var vss := Supplied(scripts, os, name);
            && (b.Predicted? <==> vss != [] && AllSame(vss) && create2(vss[0]).Some?)
            && (b.Predicted? ==> b.values == vss[0] && create2(vss[0]) == Some(b.address))
            && (b.Broken? <==>
                  || (!AllSame(vss) && exists i | 0 <= i < |vss| :: SomeBigInt(vss[i]))
                  || (vss != [] && AllSame(vss) && create2(vss[0]).None? && SomeBigInt(vss[0])))
  {
    var r := ResolveConstructorArgs(os, name, parameters, scripts);
    match r {
      case NoParameters =>
        if create2([]).None? {
          b := Refuse([]);
        } else {
          b := Predicted(create2([]).value, []);
        }
      case Agreed(values, _) =>
        if create2(values).None? {
          b := Refuse(values);
        } else {
          b := Predicted(create2(values).value, values);
        }
      case Thrown => b := Broken;
      case _ => b := Unpredictable;
    }
  }

  /** `[[1n]]` is a literal like any other, and serialising the arguments kept from it fails. */
  lemma NestedExample()
    ensures var values := [List([BigInt(1)])];
            && LiteralValue(Array([Array([BigIntLiteral(1)])])) == Ok(List(values))
            && NestedBigInt(values) && UnreplacedAll(Kept(values)) == None
  {
    var values := [List([BigInt(1)])];
    assert HasBigInt([BigInt(1)][0]);
    assert values[0].List? && HasBigInt(values[0]);
    KeptExactly(values);
    OneLiteral(BigIntLiteral(1));
    OneLiteral(Array([BigIntLiteral(1)]));
  }

  lemma OneLiteral(e: Expr)
    requires LiteralValue(e).Ok?
    ensures LiteralValues([e]) == Ok([LiteralValue(e).value])
  {
    assert [e][1..] == [];
    var rest := LiteralValues([]);
    assert rest == Ok([]);
    assert [LiteralValue(e).value] + rest.value == [LiteralValue(e).value];
  }
}
