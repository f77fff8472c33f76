/** Choosing among several definitions of one proc: `BestFitProcToCall` of src/analyzer/index.cpp. */
module BestFit {
  import opened Options

  const UINT_MODULUS := 0x1_0000_0000

  /** The counts are `unsigned int` in the program, so their sum wraps around. */
  datatype Arity = Arity(required: nat, optional: nat, variadic: bool) {

    predicate Exact(args: nat) {
      args == required
    }

    predicate Accepts(args: nat) {
      args > required && (args <= (required + optional) % UINT_MODULUS || variadic)
    }
  }

  /** The counts an arity takes, as exact or accepted, are those from the required ones up to all positional ones, or
      without end for a variadic proc: exactly when it is variadic or the sum of its counts does not wrap around. */
  lemma TakesExactly(arity: Arity)
    requires arity.required < UINT_MODULUS && arity.optional < UINT_MODULUS
    ensures (forall args: nat :: arity.Exact(args) || arity.Accepts(args) <==>
                                 arity.required <= args && (arity.variadic || args <= arity.required + arity.optional))
            <==> arity.variadic || arity.required + arity.optional < UINT_MODULUS
  {
    var most := arity.required + arity.optional;
    if most < UINT_MODULUS {
      assert most % UINT_MODULUS == most;
    } else {
      assert most % UINT_MODULUS == most - UINT_MODULUS;
      assert arity.Exact(most) || arity.Accepts(most) <==> arity.variadic;
    }
  }

  /** The chosen position in a list of definitions, in closed form: the first exact one after position 0,
      failing that the last one after position 0 that accepts the count, failing that position 0. */
  ghost predicate IsBestFit(arities: seq<Arity>, args: nat, best: Option<nat>) {
    match best
    case None => arities == []
    case Some(k) =>
      && k < |arities|
      && (if exists i :: 1 <= i < |arities| && arities[i].Exact(args) then
            k >= 1 && arities[k].Exact(args) && forall i :: 1 <= i < k ==> !arities[i].Exact(args)
          else if exists i :: 1 <= i < |arities| && arities[i].Accepts(args) then
            k >= 1 && arities[k].Accepts(args) && forall i :: k < i < |arities| ==> !arities[i].Accepts(args)
          else k == 0)
  }

  /** The position the loop holds after looking at all of `arities`, and whether it has stopped. */
  function BestFitOf(arities: seq<Arity>, args: nat): (best: Option<nat>)
    ensures best.Some? ==> best.value < |arities|
    ensures best.Some? <==> arities != []
  {
    if arities == [] then None
    else
      var n := |arities| - 1;
      var before := BestFitOf(arities[..n], args);
      if n == 0 then Some(0)
      else if before.value >= 1 && arities[before.value].Exact(args) then before
      else if arities[n].Exact(args) || arities[n].Accepts(args) then Some(n)
      else before
  }

  lemma {:induction false} BestFitClosedForm(arities: seq<Arity>, args: nat)
    ensures IsBestFit(arities, args, BestFitOf(arities, args))
  {
    if |arities| > 1 {
      var n := |arities| - 1;
      var init := arities[..n];
      BestFitClosedForm(init, args);
      assert forall i :: 0 <= i < n ==> init[i] == arities[i];
    }
  }

  method BestFitProcToCall(arities: seq<Arity>, args: nat) returns (bestFit: Option<nat>)
    ensures bestFit == BestFitOf(arities, args)
    ensures IsBestFit(arities, args, bestFit)
  {
    bestFit := None;
    var i := 0;
    while i < |arities|
      invariant i <= |arities|
      invariant bestFit == BestFitOf(arities[..i], args)
      invariant bestFit.Some? && bestFit.value >= 1 ==> !arities[bestFit.value].Exact(args)
    {
      var proc := arities[i];
      assert arities[..i + 1][..i] == arities[..i];
      if bestFit.None? {
        bestFit := Some(i);
      } else if args < proc.required {
      } else if args == proc.required {
        bestFit := Some(i);
        ExactStops(arities, args, i + 1);
        break;
      } else if args <= (proc.required + proc.optional) % UINT_MODULUS {
        bestFit := Some(i);
      } else if proc.variadic {
        bestFit := Some(i);
      }
      i := i + 1;
    }
    assert arities[..|arities|] == arities;
    BestFitClosedForm(arities, args);
  }

  lemma {:induction false} ExactStops(arities: seq<Arity>, args: nat, n: nat)
    requires 1 <= n <= |arities|
    requires var best := BestFitOf(arities[..n], args); best.value >= 1 && arities[best.value].Exact(args)
    ensures BestFitOf(arities, args) == BestFitOf(arities[..n], args)
  {
    if n < |arities| {
      assert arities[..|arities| - 1][..n] == arities[..n];
      ExactStops(arities[..|arities| - 1], args, n);
    } else {
      assert arities[..n] == arities;
    }
  }
}
