/** The delay-line sweep that tests one unit per boot and takes a hang for an answer: all it
    knows across resets is one packed record. */
module MmapScan {
  import opened Bytes

  const MAX_UNIT := 127
  const MAX_CANDIDATES := 32

  datatype Magic = Idle | Active | Done
  datatype Answer = Pass | Mismatch | Hang

  // ---- four byte fields in one word ----

  function Pack(a: Byte, b: Byte, c: Byte, d: Byte): (w: nat)
    ensures w < WORD
  {
    FromLe32([a, b, c, d])
  }

  function Field(w: nat, k: nat): Byte
    requires w < WORD && k < 4
  {
    Le32(w)[k]
  }

  /** (w & 0x00FFFFFF) | (v << 24) */
  function SetTop(w: nat, v: Byte): (r: nat)
    requires w < WORD
    ensures r < WORD
  {
    FromLe32(Le32(w)[3 := v])
  }

  lemma FieldsOfPack(a: Byte, b: Byte, c: Byte, d: Byte)
    ensures var w := Pack(a, b, c, d);
      Field(w, 0) == a && Field(w, 1) == b && Field(w, 2) == c && Field(w, 3) == d
  {
    Le32OfFromLe32([a, b, c, d]);
  }

  lemma FieldsOfSetTop(w: nat, v: Byte)
    requires w < WORD
    ensures Field(SetTop(w, v), 3) == v
    ensures forall k :: 0 <= k < 3 ==> Field(SetTop(w, v), k) == Field(w, k)
  {
    Le32OfFromLe32(Le32(w)[3 := v]);
  }

  // ---- what a start accepts ----

  /** The guard, in 32-bit arithmetic. */
  predicate Accepts(phase: nat, ulo: nat, ustep: nat, ncand: nat) {
    && 1 <= phase <= 12 && ustep != 0 && 1 <= ncand <= MAX_CANDIDATES
    && (ulo + (ncand - 1) * ustep) % WORD <= MAX_UNIT
  }

  /** The unit that candidate i really gets, from the packed bytes. */
  function Unit(ulo: nat, ustep: nat, i: nat): nat {
    ulo % 0x100 + i * (ustep % 0x100)
  }

  function Asked(ulo: nat, ustep: nat, i: nat): nat {
    ulo + i * ustep
  }

  lemma StepsAdd(ulo: nat, ustep: nat, i: nat, n: nat)
    requires i <= n
    ensures Asked(ulo, ustep, i) <= Asked(ulo, ustep, n)
    ensures 0 < i ==> ulo <= Asked(ulo, ustep, i) && ustep <= Asked(ulo, ustep, i)
  {
    assert (n - i) * ustep >= 0;
    if i > 0 { assert (i - 1) * ustep >= 0; }
  }

  /** An accepted sweep tests the units that were asked for exactly when the bound it was
      checked against did not wrap around; and then none is above the last one. */
  lemma TestsWhatWasAskedIff(phase: nat, ulo: nat, ustep: nat, ncand: nat)
    requires ulo < WORD && ustep < WORD && Accepts(phase, ulo, ustep, ncand)
    ensures (forall i :: 0 <= i < ncand ==> Unit(ulo, ustep, i) == Asked(ulo, ustep, i)) <==>
      ulo + (ncand - 1) * ustep < WORD
    ensures ulo + (ncand - 1) * ustep < WORD ==>
      forall i :: 0 <= i < ncand ==> Unit(ulo, ustep, i) <= MAX_UNIT
  {
    var n := ncand - 1;
    if Asked(ulo, ustep, n) < WORD {
      assert Asked(ulo, ustep, n) <= MAX_UNIT;
      forall i | 0 <= i < ncand
        ensures Unit(ulo, ustep, i) == Asked(ulo, ustep, i) <= MAX_UNIT
      {
        StepsAdd(ulo, ustep, i, n);
        StepsAdd(ulo, ustep, 0, n);
        assert ulo % 0x100 == ulo;
        if i > 0 { assert ustep % 0x100 == ustep; }
      }
    } else {
      UnitIsSmall(ulo, ustep, n);
      assert Unit(ulo, ustep, n) != Asked(ulo, ustep, n);
    }
  }

  /** Every sweep of one to 32 units that exist is accepted, in any of the twelve phases; and
      one that reaches beyond the last unit, without wrapping, is not. */
  lemma SoundSweepIsAccepted(phase: nat, ulo: nat, ustep: nat, ncand: nat)
    requires 1 <= phase <= 12 && ustep != 0 && 1 <= ncand <= MAX_CANDIDATES
    requires Asked(ulo, ustep, ncand - 1) < WORD
    ensures Accepts(phase, ulo, ustep, ncand) <==>
      forall i :: 0 <= i < ncand ==> Asked(ulo, ustep, i) <= MAX_UNIT
  {
    forall i | 0 <= i < ncand ensures Asked(ulo, ustep, i) <= Asked(ulo, ustep, ncand - 1) {
      StepsAdd(ulo, ustep, i, ncand - 1);
    }
  }

  lemma UnitIsSmall(ulo: nat, ustep: nat, i: nat)
    requires i < MAX_CANDIDATES
    ensures Unit(ulo, ustep, i) < 0x100 * MAX_CANDIDATES
  {
    assert i * (ustep % 0x100) <= i * 0xFF;
  }

  /** A start that wraps: accepted, and far past the end of the delay line. */
  lemma WrapIsAccepted()
    ensures Accepts(1, WORD - 10, 10, 2) && Unit(WORD - 10, 10, 0) > MAX_UNIT
  {
  }

  // ---- the record ----

  function Zeroes(): (s: seq<bool>)
    ensures |s| == 32 && forall i :: 0 <= i < 32 ==> !s[i]
  {
    seq(32, _ => false)
  }

  /** The first k candidates have answered.  After a hang the index still points at the one
      that hung; after anything else it has moved on. */
  predicate Stands(rng: nat, tested: seq<bool>, passed: seq<bool>, answers: seq<Answer>, k: nat) {
    && rng < WORD && |tested| == |passed| == 32
    && Field(rng, 2) == |answers| <= MAX_CANDIDATES && k <= |answers|
    && (forall i :: 0 <= i < 32 ==> (tested[i] <==> i < k))
    && (forall i :: 0 <= i < 32 ==> (passed[i] <==> i < k && answers[i] == Pass))
    && (Field(rng, 3) == k || (k > 0 && Field(rng, 3) == k - 1 && answers[k - 1] == Hang))
  }

  /** Where the record says the sweep is: past the current candidate if that one hung. */
  function Current(rng: nat, tested: seq<bool>, passed: seq<bool>): (idx: nat)
    requires rng < WORD && |tested| == |passed| == 32 && Field(rng, 2) <= 32
    ensures idx <= 0x100
  {
    var idx := Field(rng, 3);
    if idx < Field(rng, 2) && tested[idx] && !passed[idx] then idx + 1 else idx
  }

  lemma CurrentIs(rng: nat, tested: seq<bool>, passed: seq<bool>, answers: seq<Answer>, k: nat)
    requires Stands(rng, tested, passed, answers, k)
    ensures Current(rng, tested, passed) == k <= Field(rng, 2) == |answers| <= 32
  {
    hide Field;
  }

  /** A candidate that answers, by hanging or otherwise. */
  lemma OneAnswer(rng: nat, tested: seq<bool>, passed: seq<bool>, answers: seq<Answer>, k: nat)
    requires Stands(rng, tested, passed, answers, k) && k < |answers|
    ensures var t, p := tested[k := true], if answers[k] == Pass then passed[k := true] else passed;
      && (answers[k] == Hang ==> Stands(SetTop(rng, k), t, p, answers, k + 1))
      && (answers[k] != Hang ==> Stands(SetTop(SetTop(rng, k), k + 1), t, p, answers, k + 1))
  {
    hide Field, SetTop;
    FieldsOfSetTop(rng, k);
    FieldsOfSetTop(SetTop(rng, k), k + 1);
  }

  lemma Closing(rng: nat, tested: seq<bool>, passed: seq<bool>, answers: seq<Answer>)
    requires Stands(rng, tested, passed, answers, |answers|)
    ensures Stands(SetTop(rng, |answers|), tested, passed, answers, |answers|)
  {
    hide Field, SetTop;
    FieldsOfSetTop(rng, |answers|);
  }

  class Scan {
    var magic: Magic
    var cfg: nat
    var rng: nat
    var tested: seq<bool>          // bit i of the word
    var passed: seq<bool>
    var mr0: Byte

    ghost predicate Valid()
      reads this
    {
      cfg < WORD && rng < WORD && |tested| == |passed| == 32
    }

    ghost predicate Progress(answers: seq<Answer>, k: nat)
      reads this
    {
      Valid() && Stands(rng, tested, passed, answers, k)
    }

    constructor ()
      ensures Valid() && magic == Idle
    {
      magic, cfg, rng, tested, passed, mr0 := Idle, 0, 0, Zeroes(), Zeroes(), 0;
    }

    /** Accepted, it resets the board into the first boot of the sweep. */
    method Start(up: bool, phase: nat, ulo: nat, ustep: nat, ncand: nat,
                 presc: nat, rd: nat, wr: nat, mode: nat)
      returns (ok: bool)
      requires Valid() && ulo < WORD && ustep < WORD
      modifies this
      ensures Valid() && (ok <==> up && Accepts(phase, ulo, ustep, ncand))
      ensures ok ==> magic == Active && mr0 == mode % 0x100
      ensures ok ==> Field(cfg, 0) == presc % 0x100 && Field(cfg, 1) == phase
      ensures ok ==> Field(cfg, 2) == rd % 0x100 && Field(cfg, 3) == wr % 0x100
      ensures ok ==> Field(rng, 0) == ulo % 0x100 && Field(rng, 1) == ustep % 0x100
      ensures ok ==> forall answers: seq<Answer> :: |answers| == ncand ==> Progress(answers, 0)
      ensures !ok ==> magic == old(magic) && rng == old(rng)
    {
      hide Pack, Field;
      ok := up && Accepts(phase, ulo, ustep, ncand);
      if !ok { return; }
      cfg := Pack(presc % 0x100, phase, rd % 0x100, wr % 0x100);
      rng := Pack(ulo % 0x100, ustep % 0x100, ncand, 0);
      FieldsOfPack(presc % 0x100, phase, rd % 0x100, wr % 0x100);
      FieldsOfPack(ulo % 0x100, ustep % 0x100, ncand, 0);
      tested, passed, mr0, magic := Zeroes(), Zeroes(), mode % 0x100, Active;
    }

    /** One boot.  `answer` is what the memory-mapped test does, if it comes to that: `unit`
        is the one tried, and `reset` whether the board resets itself or is reset. */
    method Boot(up: bool, answer: Answer, ghost answers: seq<Answer>, ghost k: nat)
      returns (reset: bool, unit: Option<nat>)
      requires magic == Active && Progress(answers, k)
      requires k < |answers| ==> answers[k] == answer
      modifies this
      ensures Valid() && Field(rng, 0) == old(Field(rng, 0)) && Field(rng, 1) == old(Field(rng, 1))
      ensures up && k < |answers| ==> reset && magic == Active && Progress(answers, k + 1)
      ensures up && k < |answers| ==> unit == Some(Field(rng, 0) + k * Field(rng, 1))
      ensures !up || k == |answers| ==>
        !reset && magic == Done && unit == None && Progress(answers, k)
    {
      hide Pack, Field, SetTop, Stands, Current;
      unit, reset := None, false;
      if !up { magic := Done; return; }
      CurrentIs(rng, tested, passed, answers, k);
      var ulo, ustep, ncand := Field(rng, 0), Field(rng, 1), Field(rng, 2);
      var idx := Current(rng, tested, passed);
      FieldsOfSetTop(rng, idx);
      if idx >= ncand {
        magic := Done;
        Closing(rng, tested, passed, answers);
        rng := SetTop(rng, idx);
        return;
      }
      OneAnswer(rng, tested, passed, answers, k);
      unit := Some(ulo + idx * ustep);
      tested := tested[idx := true];
      rng := SetTop(rng, idx);
      reset := true;
      if answer == Hang { return; }
      if answer == Pass { passed := passed[idx := true]; }
      FieldsOfSetTop(rng, idx + 1);
      rng := SetTop(rng, idx + 1);
    }
  }

  /** The whole sweep: with the device up at every boot, one boot per candidate and one more
      to close it, every candidate tested once, in order, and passed exactly if it passed.
      A device that stays down at boot `dies` ends it there, with what had been found. */
  method Sweep(scan: Scan, phase: nat, ulo: nat, ustep: nat, answers: seq<Answer>, dies: nat)
    returns (ok: bool, boots: nat, units: seq<nat>)
    requires scan.Valid() && ulo < WORD && ustep < WORD
    modifies scan
    ensures ok <==> Accepts(phase, ulo, ustep, |answers|)
    ensures ok ==> scan.magic == Done && scan.Valid()
    ensures ok ==> boots == (if dies < |answers| then dies else |answers|) + 1
    ensures ok ==> |units| == boots - 1 <= |answers|
    ensures ok ==> forall i :: 0 <= i < |units| ==> units[i] == Unit(ulo, ustep, i)
    ensures ok ==> forall i :: 0 <= i < 32 ==> (scan.tested[i] <==> i < |units|)
    ensures ok ==>
      forall i :: 0 <= i < 32 ==> (scan.passed[i] <==> i < |units| && answers[i] == Pass)
  {
    hide Field;
    boots, units := 0, [];
    ok := scan.Start(true, phase, ulo, ustep, |answers|, 0, 0, 0, 0);
    if !ok { return; }
    while scan.magic == Active
      invariant scan.magic in {Active, Done} && |units| <= dies
      invariant scan.Progress(answers, |units|)
      invariant Field(scan.rng, 0) == ulo % 0x100 && Field(scan.rng, 1) == ustep % 0x100
      invariant forall i :: 0 <= i < |units| ==> units[i] == Unit(ulo, ustep, i)
      invariant scan.magic == Active ==> boots == |units|
      invariant scan.magic == Done ==>
        boots == |units| + 1 && (|units| == dies || |units| == |answers|)
      decreases if scan.magic == Active then 1 else 0, |answers| - |units|
    {
      var answer := if |units| < |answers| then answers[|units|] else Hang;
      var reset, unit := scan.Boot(|units| < dies, answer, answers, |units|);
      boots := boots + 1;
      if unit.Some? { units := units + [unit.value]; }
    }
  }
}
