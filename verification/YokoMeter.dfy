// yoko_read_energy of probes/libenergyyoko/yokosrv.c: differences of a cumulative reading.
// What the instrument answers is a parameter.

module YokoMeter {
  import opened DecimalParser

  // One call: its result and the reading it leaves in last_e. The guard compares with NAN and
  // INFINITY; a comparison with NAN is never true, so only an infinite or negative reading is
  // turned away.
  function ReadStep(last: Reading, cur: Reading): (Reading, Reading) {
    match cur
    case Infinity => (Value(0.0), last)
    case NaN => (NaN, NaN)
    case Value(v) =>
      if v < 0.0 then (Value(0.0), last)
      else (if last.Value? then Value(v * 3600.0 - last.v) else NaN, Value(v * 3600.0))
  }

  class Meter {
    // last_e, never infinite
    var last: Reading

    constructor ()
      ensures last == Value(0.0)
    {
      last := Value(0.0);
    }

    method ReadEnergy(cur: Reading) returns (res: Reading)
      requires !last.Infinity?
      modifies this
      ensures (res, last) == ReadStep(old(last), cur) && !last.Infinity?
    {
      if cur == Infinity || (cur.Value? && cur.v < 0.0) {
        return Value(0.0);
      }
      res := if cur.Value? && last.Value? then Value(cur.v * 3600.0 - last.v) else NaN;
      last := if cur.Value? then Value(cur.v * 3600.0) else NaN;
    }
  }

  // The results of successive calls, and the reading left behind.
  function Results(last: Reading, curs: seq<Reading>): seq<Reading>
    decreases |curs|
  {
    if curs == [] then [] else [ReadStep(last, curs[0]).0] + Results(ReadStep(last, curs[0]).1, curs[1..])
  }

  function LastOf(last: Reading, curs: seq<Reading>): Reading
    decreases |curs|
  {
    if curs == [] then last else LastOf(ReadStep(last, curs[0]).1, curs[1..])
  }

  predicate AllNumbers(rs: seq<Reading>) {
    forall r :: r in rs ==> r.Value?
  }

  function Total(rs: seq<Reading>): real
    requires AllNumbers(rs)
  {
    if rs == [] then 0.0 else rs[0].v + Total(rs[1..])
  }

  // The last accepted reading in joules, or the one before.
  function Newest(first: real, curs: seq<Reading>): real {
    if curs == [] then first
    else
      var c := curs[|curs| - 1];
      if c.Value? && c.v >= 0.0 then c.v * 3600.0 else Newest(first, curs[..|curs| - 1])
  }

  lemma {:induction false} LastIsNewest(first: real, curs: seq<Reading>)
    requires NaN !in curs
    ensures LastOf(Value(first), curs) == Value(Newest(first, curs))
    decreases |curs|
  {
    if curs != [] {
      var next := ReadStep(Value(first), curs[0]).1;
      LastIsNewest(next.v, curs[1..]);
      NewestCons(first, curs);
    }
  }

  lemma {:induction false} NewestCons(first: real, curs: seq<Reading>)
    requires curs != []
    ensures Newest(first, curs)
         == Newest(if curs[0].Value? && curs[0].v >= 0.0 then curs[0].v * 3600.0 else first, curs[1..])
    decreases |curs|
  {
    if |curs| > 1 {
      assert curs[1..][..|curs| - 2] == curs[..|curs| - 1][1..];
      NewestCons(first, curs[..|curs| - 1]);
    } else {
      assert curs[..0] == [] && curs[1..] == [];
    }
  }

  /** Telescoping: whatever the sequence of readings, the results are all numbers exactly when
      the instrument never answers its "not a number" code; then they add up to the energy
      between the reading before the first call and the last accepted reading. */
  lemma {:induction false} EnergiesTelescope(first: real, curs: seq<Reading>)
    ensures AllNumbers(Results(Value(first), curs)) <==> NaN !in curs
    ensures NaN !in curs ==> Total(Results(Value(first), curs)) == Newest(first, curs) - first
    decreases |curs|
  {
    if curs != [] {
      var step := ReadStep(Value(first), curs[0]);
      var rs := Results(Value(first), curs);
      assert rs[0] == step.0 && rs[1..] == Results(step.1, curs[1..]);
      assert rs == [rs[0]] + rs[1..] && curs == [curs[0]] + curs[1..];
      if step.1.Value? {
        EnergiesTelescope(step.1.v, curs[1..]);
        NewestCons(first, curs);
      }
    }
  }

  // ---------- each call ----------

  // The guard turns the reading away.
  predicate TurnedAway(cur: Reading) {
    cur == Infinity || (cur.Value? && cur.v < 0.0)
  }

  // Every reading of the NAN code before call i has been followed by an accepted number.
  predicate Recovered(curs: seq<Reading>, i: nat)
    requires i <= |curs|
  {
    forall j :: 0 <= j < i && curs[j] == NaN ==>
      exists k :: j < k < i && curs[k].Value? && !TurnedAway(curs[k])
  }

  lemma {:induction false} LastSnoc(last: Reading, curs: seq<Reading>, cur: Reading)
    ensures LastOf(last, curs + [cur]) == ReadStep(LastOf(last, curs), cur).1
    decreases |curs|
  {
    if curs == [] {
      assert (curs + [cur])[1..] == [];
    } else {
      assert (curs + [cur])[1..] == curs[1..] + [cur];
      LastSnoc(ReadStep(last, curs[0]).1, curs[1..], cur);
    }
  }

  lemma {:induction false} ResultStep(last: Reading, curs: seq<Reading>, i: nat)
    requires i < |curs|
    ensures |Results(last, curs)| == |curs|
    ensures Results(last, curs)[i] == ReadStep(LastOf(last, curs[..i]), curs[i]).0
    decreases |curs|
  {
    var next := ReadStep(last, curs[0]).1;
    if i == 0 {
      if |curs| > 1 { ResultStep(next, curs[1..], 0); }
    } else {
      ResultStep(next, curs[1..], i - 1);
      assert curs[..i][0] == curs[0] && curs[..i][1..] == curs[1..][..i - 1];
    }
  }

  lemma RecoveredNext(curs: seq<Reading>, i: nat)
    requires i < |curs|
    ensures Recovered(curs, i + 1) <==>
              if TurnedAway(curs[i]) then Recovered(curs, i) else curs[i].Value?
  {
    if TurnedAway(curs[i]) {
      if Recovered(curs, i + 1) {
        forall j | 0 <= j < i && curs[j] == NaN
          ensures exists k :: j < k < i && curs[k].Value? && !TurnedAway(curs[k])
        {
          var k :| j < k < i + 1 && curs[k].Value? && !TurnedAway(curs[k]);
        }
      }
    }
  }

  lemma {:induction false} LastAt(first: real, curs: seq<Reading>, i: nat)
    requires i <= |curs|
    ensures LastOf(Value(first), curs[..i])
         == if Recovered(curs, i) then Value(Newest(first, curs[..i])) else NaN
  {
    if i > 0 {
      LastAt(first, curs, i - 1);
      RecoveredNext(curs, i - 1);
      assert curs[..i] == curs[..i - 1] + [curs[i - 1]];
      LastSnoc(Value(first), curs[..i - 1], curs[i - 1]);
      assert curs[..i][..i - 1] == curs[..i - 1];
    }
  }

  /** Each call. A reading that is turned away gives 0. Any other result is a number exactly when
      the reading is one and every earlier NAN code has been followed by an accepted number; it
      is then the difference to the last accepted reading, in joules. */
  lemma ResultAt(first: real, curs: seq<Reading>, i: nat)
    requires i < |curs|
    ensures var rs := Results(Value(first), curs);
            && |rs| == |curs|
            && (TurnedAway(curs[i]) ==> rs[i] == Value(0.0))
            && (!TurnedAway(curs[i]) ==> (rs[i].Value? <==> curs[i].Value? && Recovered(curs, i)))
            && (!TurnedAway(curs[i]) && rs[i].Value? ==>
                  rs[i].v == curs[i].v * 3600.0 - Newest(first, curs[..i]))
  {
    ResultStep(Value(first), curs, i);
    LastAt(first, curs, i);
  }
}
