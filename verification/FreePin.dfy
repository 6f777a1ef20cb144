/** device_migration.py: the search for a free numeric PIN, shared by every migration path. */
module FreePin {
  import opened Text

  /** The integers that the PIN texts in use read as; texts that are no integer are skipped. */
  function UsedPins(pins: seq<string>): set<int> {
    set p | p in pins && PyInt(p).Some? :: PyInt(p).value
  }

  /** The PIN asked for on the target: the explicit one, stripped, or the source PIN. */
  function WantedPin(userId: string, target: Option<string>): string {
    if target.Some? && target.value != [] then Strip(target.value) else userId
  }

  /** Where the search starts: the wanted PIN itself when it is all digits, else 1. */
  function StartPin(wanted: string): nat {
    if AllDigits(wanted) then DecimalValue(wanted) else 1
  }

  function LeastFree(start: nat, used: set<int>): nat
    decreases |used|
  {
    if start in used then LeastFree(start + 1, used - {start}) else start
  }

  function FreePinFor(wanted: string, pins: seq<string>): string {
    Decimal(LeastFree(StartPin(wanted), UsedPins(pins)))
  }

  /** The least integer at or above the start that is not in use. */
  lemma {:induction false} LeastFreeSpec(start: nat, used: set<int>)
    ensures LeastFree(start, used) >= start && LeastFree(start, used) !in used
    ensures forall k :: start <= k < LeastFree(start, used) ==> k in used
    decreases |used|
  {
    if start in used {
      LeastFreeSpec(start + 1, used - {start});
      var n := LeastFree(start + 1, used - {start});
      forall k | start <= k < n
        ensures k in used
      {
        assert k == start || k in used - {start};
      }
    }
  }

  /** Its text differs from every PIN in use, leading zeros and non-numeric PINs included. */
  lemma FreePinIsFree(wanted: string, pins: seq<string>)
    ensures FreePinFor(wanted, pins) !in pins
    ensures wanted in pins ==> FreePinFor(wanted, pins) != wanted
  {
    hide PyInt, Decimal, StartPin;
    var used := UsedPins(pins);
    var n := LeastFree(StartPin(wanted), used);
    LeastFreeSpec(StartPin(wanted), used);
    forall p | p in pins
      ensures Decimal(n) != p
    {
      assert PyInt(p).Some? ==> PyInt(p).value in used;
      FreshDecimalDiffers(n, p);
    }
  }

  /** Some PIN reads as the number. */
  predicate ReadsAs(pins: seq<string>, k: int) {
    exists p :: p in pins && PyInt(p) == Some(k)
  }

  /** The PIN found is the least number, from the wanted PIN on where that is all digits and else from 1, that no PIN reads as. */
  lemma FreePinByNumbers(wanted: string, pins: seq<string>)
    ensures var start := if AllDigits(wanted) then DecimalValue(wanted) else 1;
      exists n: nat ::
        FreePinFor(wanted, pins) == Decimal(n) && !ReadsAs(pins, n) && n >= start && forall k :: start <= k < n ==> ReadsAs(pins, k)
  {
    hide PyInt, Decimal, AllDigits, DecimalValue;
    var n := LeastFree(StartPin(wanted), UsedPins(pins));
    LeastFreeSpec(StartPin(wanted), UsedPins(pins));
    forall k: int
      ensures k in UsedPins(pins) <==> ReadsAs(pins, k)
    {
    }
  }

  lemma FreePinIsPlain(wanted: string, pins: seq<string>)
    ensures FreePinFor(wanted, pins) != [] && Strip(FreePinFor(wanted, pins)) == FreePinFor(wanted, pins)
  {
    hide Decimal, Strip, StartPin;
    IntTextIsPlain(LeastFree(StartPin(wanted), UsedPins(pins)));
  }

  /** `while cand in used: cand += 1` */
  method FindLeastFree(start: nat, used: set<int>) returns (cand: nat)
    ensures cand == LeastFree(start, used)
  {
    cand := start;
    ghost var ahead := used;
    while cand in used
      invariant cand >= start && ahead <= used
      invariant forall k :: k in used && k >= cand ==> k in ahead
      invariant LeastFree(start, used) == LeastFree(cand, ahead)
      decreases |ahead|
    {
      ahead := ahead - {cand};
      cand := cand + 1;
    }
  }

  /** The integers of the PINs on the reader are collected first, then the search runs. */
  method FindFreePin(wanted: string, pins: seq<string>) returns (pin: string)
    ensures pin == FreePinFor(wanted, pins)
  {
    var used: set<int> := {};
    for i := 0 to |pins|
      invariant used == UsedPins(pins[..i])
    {
      UsedOneMore(pins, i);
      if PyInt(pins[i]).Some? {
        used := used + {PyInt(pins[i]).value};
      }
    }
    assert pins[..|pins|] == pins;
    var cand := FindLeastFree(StartPin(wanted), used);
    pin := Decimal(cand);
  }

  lemma UsedOneMore(pins: seq<string>, i: nat)
    requires i < |pins|
    ensures UsedPins(pins[..i + 1])
         == UsedPins(pins[..i]) + (if PyInt(pins[i]).Some? then {PyInt(pins[i]).value} else {})
  {
    hide PyInt;
    assert pins[..i + 1] == pins[..i] + [pins[i]];
    var before, now := UsedPins(pins[..i]), UsedPins(pins[..i + 1]);
    forall k | k in before
      ensures k in now
    {
      var p :| p in pins[..i] && PyInt(p) == Some(k);
      assert p in pins[..i + 1];
    }
    assert pins[i] in pins[..i + 1];
    forall k | k in now
      ensures k in before || PyInt(pins[i]) == Some(k)
    {
      var p :| p in pins[..i + 1] && PyInt(p) == Some(k);
    }
  }
}
