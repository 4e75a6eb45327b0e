/** The random bits that the handler puts into the op counter's start count (driver/ibs-interrupt.c,
    randomize_op_ctl), taken from the shift register. */
module Rearm {
  import opened Words
  import opened ControlRegister
  import Lfsr

  function BitIf(b: bool, i: nat): Word
    requires i < 64
  {
    if b then {i} else {}
  }

  /** The low four bits of a random number, moved to positions 32 to 35. */
  function RandomBits(r: bv32): (w: Word)
    ensures w <= Field(32, 36)
  {
    BitIf(r & 1 != 0, 32) + BitIf(r & 2 != 0, 33) + BitIf(r & 4 != 0, 34) + BitIf(r & 8 != 0, 35)
  }

  /** The register's second to fifth bits are the next low four. */
  lemma NextLowBits(x: bv32)
    ensures var r := Lfsr.Step(x);
      && (r & 1 != 0 <==> x & 2 != 0) && (r & 2 != 0 <==> x & 4 != 0)
      && (r & 4 != 0 <==> x & 8 != 0) && (r & 8 != 0 <==> x & 16 != 0)
  {}

  /** What the low four bits of the start count have to be for the next sample not to change it. */
  predicate Matches(ctl: Word, x: bv32) {
    && (32 in ctl <==> x & 2 != 0) && (33 in ctl <==> x & 4 != 0)
    && (34 in ctl <==> x & 8 != 0) && (35 in ctl <==> x & 16 != 0)
  }

  lemma MatchesNibble(ctl: Word, x: bv32)
    ensures Matches(ctl, x) <==> RandomBits(Lfsr.Step(x)) == ctl * Field(32, 36)
  {
    NextLowBits(x);
    var w := RandomBits(Lfsr.Step(x));
    assert (32 in w <==> x & 2 != 0) && (33 in w <==> x & 4 != 0) && (34 in w <==> x & 8 != 0) && (35 in w <==> x & 16 != 0);
    if Matches(ctl, x) {
      assert forall i :: i in w <==> i in ctl * Field(32, 36);
    } else {
      var low := ctl * Field(32, 36);
      assert (32 in low <==> 32 in ctl) && (33 in low <==> 33 in ctl) && (34 in low <==> 34 in ctl) && (35 in low <==> 35 in ctl);
    }
  }

  /** Without the extended counter, re-arming keeps the configured settings exactly when bits 1 to 4 of
      the shift register, before the call, are the low four bits of the start count. Everything but
      the start count is always kept. */
  lemma StartCountSurvives(ctl: Word, x: bv32)
    requires ctl <= Used(Config(Op, false))
    ensures var c := Config(Op, false); var out := Randomize(ctl, RandomBits(Lfsr.Step(x)));
      && OP_VAL !in out && Meaning(c, out).(cur := 0) == Meaning(c, ctl).(cur := 0)
      && (Meaning(c, out) == Meaning(c, ctl) <==> Matches(ctl, x))
  {
    MatchesNibble(ctl, x);
    RearmOldCounter(ctl, RandomBits(Lfsr.Step(x)));
  }

  /** The default start count, 0, is gone with the first sample. */
  lemma FirstSampleMovesStart()
    ensures var c := Config(Op, false);
      Meaning(c, Randomize(Defaults(c), RandomBits(Lfsr.Value(1)))) != Meaning(c, Defaults(c))
  {
    var c := Config(Op, false);
    DefaultsMeaning(c);
    DefaultStartIsClear(c);
    assert 33 !in Defaults(c) by { assert 33 in CurField(c); }
    SeedBit();
    StartCountSurvives(Defaults(c), Lfsr.SEED);
  }

  lemma SeedBit()
    ensures Lfsr.SEED & 4 != 0 && Lfsr.Value(1) == Lfsr.Step(Lfsr.SEED)
  {
    assert Lfsr.Value(0) == Lfsr.SEED;
  }
}
