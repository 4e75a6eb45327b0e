/** Jump identities of the bit stream behind lfsr_random: how far-apart bits depend on sixteen
    neighbouring ones. Each follows from two earlier ones by applying one inside the other; `q` is
    the quotient by two, so that every identity is plain linear arithmetic. */
module LfsrJumps {

  /** The feedback relation at `n`, over the integers: the register's bits are the parities. */
  ghost predicate Feedback(f: nat -> int, n: nat) {
    f(n + 16) == f(n) + f(n + 2) + f(n + 3) + f(n + 5)
  }

  ghost predicate Stream(f: nat -> int) {
    forall n: nat :: Feedback(f, n)
  }

  lemma Wide(f: nat -> int, n: nat)
    requires Stream(f)
    ensures f(n + 16) == f(n) + f(n + 2) + f(n + 3) + f(n + 5)
    ensures f(n + 17) == f(n + 1) + f(n + 3) + f(n + 4) + f(n + 6)
    ensures f(n + 18) == f(n + 2) + f(n + 4) + f(n + 5) + f(n + 7)
    ensures f(n + 19) == f(n + 3) + f(n + 5) + f(n + 6) + f(n + 8)
    ensures f(n + 20) == f(n + 4) + f(n + 6) + f(n + 7) + f(n + 9)
    ensures f(n + 21) == f(n + 5) + f(n + 7) + f(n + 8) + f(n + 10)
    ensures f(n + 22) == f(n + 6) + f(n + 8) + f(n + 9) + f(n + 11)
    ensures f(n + 23) == f(n + 7) + f(n + 9) + f(n + 10) + f(n + 12)
    ensures f(n + 24) == f(n + 8) + f(n + 10) + f(n + 11) + f(n + 13)
    ensures f(n + 25) == f(n + 9) + f(n + 11) + f(n + 12) + f(n + 14)
    ensures f(n + 26) == f(n + 10) + f(n + 12) + f(n + 13) + f(n + 15)
    ensures f(n + 27) == f(n + 11) + f(n + 13) + f(n + 14) + f(n + 16)
    ensures f(n + 28) == f(n + 12) + f(n + 14) + f(n + 15) + f(n + 17)
    ensures f(n + 29) == f(n + 13) + f(n + 15) + f(n + 16) + f(n + 18)
    ensures f(n + 30) == f(n + 14) + f(n + 16) + f(n + 17) + f(n + 19)
  {
    assert Feedback(f, n) && Feedback(f, n + 1) && Feedback(f, n + 2) && Feedback(f, n + 3) &&
      Feedback(f, n + 4) && Feedback(f, n + 5) && Feedback(f, n + 6) && Feedback(f, n + 7) &&
      Feedback(f, n + 8) && Feedback(f, n + 9) && Feedback(f, n + 10) && Feedback(f, n + 11) &&
      Feedback(f, n + 12) && Feedback(f, n + 13) && Feedback(f, n + 14);
  }

  lemma Jump16(f: nat -> int, n: nat) returns (q: int)
    requires Stream(f)
    ensures f(n + 16) == f(n) + f(n + 2) + f(n + 3) + f(n + 5) + 2 * q
  {
    assert Feedback(f, n + 0);
    q := 0;
  }

  lemma Jump17(f: nat -> int, n: nat) returns (q: int)
    requires Stream(f)
    ensures f(n + 17) == f(n + 1) + f(n + 3) + f(n + 4) + f(n + 6) + 2 * q
  {
    assert Feedback(f, n + 1);
    q := 0;
  }

  lemma Jump32(f: nat -> int, n: nat) returns (q: int)
    requires Stream(f)
    ensures f(n + 32) == f(n) + f(n + 4) + f(n + 6) + f(n + 10) + 2 * q
  {
    Wide(f, n);
    q := Jump16(f, n + 16);
    var q0 := Jump16(f, n); var q2 := Jump16(f, n + 2); var q3 := Jump16(f, n + 3); var q5 := Jump16(f, n + 5);
    q := q + q0 + q2 + q3 + q5 + f(n + 2) + f(n + 3) + 2 * f(n + 5) + f(n + 7) + f(n + 8);
  }

  lemma Jump64(f: nat -> int, n: nat) returns (q: int)
    requires Stream(f)
    ensures f(n + 64) == f(n) + f(n + 4) + f(n + 6) + f(n + 7) + f(n + 8) + f(n + 9) + f(n + 12) + 2 * q
  {
    Wide(f, n);
    q := Jump32(f, n + 32);
    var q0 := Jump32(f, n); var q4 := Jump32(f, n + 4); var q6 := Jump32(f, n + 6);
    var q10 := Jump32(f, n + 10);
    q := q + q0 + q4 + q6 + q10 + f(n) + f(n + 2) + f(n + 3) + f(n + 4) + f(n + 5) + f(n + 6) + 2 * f(n + 10) +
      f(n + 14);
  }

  lemma Jump128(f: nat -> int, n: nat) returns (q: int)
    requires Stream(f)
    ensures f(n + 128) == f(n + 3) + f(n + 4) + f(n + 7) + f(n + 10) + f(n + 11) + f(n + 12) + f(n + 13) +
      f(n + 14) + 2 * q
  {
    Wide(f, n);
    q := Jump64(f, n + 64);
    var q0 := Jump64(f, n); var q4 := Jump64(f, n + 4); var q6 := Jump64(f, n + 6); var q7 := Jump64(f, n + 7);
    var q8 := Jump64(f, n + 8); var q9 := Jump64(f, n + 9); var q12 := Jump64(f, n + 12);
    q := q + q0 + q4 + q6 + q7 + q8 + q9 + q12 + 3 * f(n) + f(n + 1) + 4 * f(n + 2) + 4 * f(n + 3) +
      4 * f(n + 4) + 6 * f(n + 5) + 4 * f(n + 6) + 4 * f(n + 7) + 4 * f(n + 8) + 2 * f(n + 9) + 2 * f(n + 10) +
      f(n + 11) + 2 * f(n + 12) + 2 * f(n + 13) + f(n + 14) + 2 * f(n + 15);
  }

  lemma Jump256(f: nat -> int, n: nat) returns (q: int)
    requires Stream(f)
    ensures f(n + 256) == f(n + 1) + f(n + 3) + f(n + 7) + f(n + 8) + 2 * q
  {
    Wide(f, n);
    q := Jump128(f, n + 128);
    var q3 := Jump128(f, n + 3); var q4 := Jump128(f, n + 4); var q7 := Jump128(f, n + 7);
    var q10 := Jump128(f, n + 10); var q11 := Jump128(f, n + 11); var q12 := Jump128(f, n + 12);
    var q13 := Jump128(f, n + 13); var q14 := Jump128(f, n + 14);
    q := q + q3 + q4 + q7 + q10 + q11 + q12 + q13 + q14 + 3 * f(n) + 3 * f(n + 1) + 5 * f(n + 2) +
      7 * f(n + 3) + 7 * f(n + 4) + 8 * f(n + 5) + 8 * f(n + 6) + 8 * f(n + 7) + 7 * f(n + 8) + 7 * f(n + 9) +
      9 * f(n + 10) + 8 * f(n + 11) + 6 * f(n + 12) + 6 * f(n + 13) + 6 * f(n + 14) + 4 * f(n + 15);
  }

  lemma Jump512(f: nat -> int, n: nat) returns (q: int)
    requires Stream(f)
    ensures f(n + 512) == f(n) + f(n + 3) + f(n + 5) + f(n + 6) + f(n + 14) + 2 * q
  {
    Wide(f, n);
    q := Jump256(f, n + 256);
    var q1 := Jump256(f, n + 1); var q3 := Jump256(f, n + 3); var q7 := Jump256(f, n + 7);
    var q8 := Jump256(f, n + 8);
    q := q + q1 + q3 + q7 + q8 + f(n + 2) + f(n + 4) + f(n + 8) + f(n + 9) + f(n + 10) + f(n + 11) + f(n + 15);
  }

  lemma Jump1024(f: nat -> int, n: nat) returns (q: int)
    requires Stream(f)
    ensures f(n + 1024) == f(n) + f(n + 1) + f(n + 3) + f(n + 4) + f(n + 10) + f(n + 14) + f(n + 15) + 2 * q
  {
    Wide(f, n);
    q := Jump512(f, n + 512);
    var q0 := Jump512(f, n); var q3 := Jump512(f, n + 3); var q5 := Jump512(f, n + 5);
    var q6 := Jump512(f, n + 6); var q14 := Jump512(f, n + 14);
    q := q + q0 + q3 + q5 + q6 + q14 + f(n + 1) + 3 * f(n + 3) + 2 * f(n + 4) + 2 * f(n + 5) + 5 * f(n + 6) +
      f(n + 7) + 2 * f(n + 8) + 2 * f(n + 9) + f(n + 11) + f(n + 12) + f(n + 14);
  }

  lemma Jump2048(f: nat -> int, n: nat) returns (q: int)
    requires Stream(f)
    ensures f(n + 2048) == f(n + 4) + f(n + 6) + f(n + 7) + f(n + 9) + f(n + 12) + f(n + 15) + 2 * q
  {
    Wide(f, n);
    q := Jump1024(f, n + 1024);
    var q0 := Jump1024(f, n); var q1 := Jump1024(f, n + 1); var q3 := Jump1024(f, n + 3);
    var q4 := Jump1024(f, n + 4); var q10 := Jump1024(f, n + 10); var q14 := Jump1024(f, n + 14);
    var q15 := Jump1024(f, n + 15);
    q := q + q0 + q1 + q3 + q4 + q10 + q14 + q15 + 3 * f(n) + 3 * f(n + 1) + 6 * f(n + 2) + 7 * f(n + 3) +
      7 * f(n + 4) + 8 * f(n + 5) + 4 * f(n + 6) + 4 * f(n + 7) + 3 * f(n + 8) + f(n + 9) + 2 * f(n + 10) +
      3 * f(n + 11) + f(n + 12) + 3 * f(n + 13) + 4 * f(n + 14) + 3 * f(n + 15);
  }

  lemma Jump4096(f: nat -> int, n: nat) returns (q: int)
    requires Stream(f)
    ensures f(n + 4096) == f(n) + f(n + 1) + f(n + 3) + f(n + 5) + f(n + 7) + f(n + 8) + f(n + 10) +
      f(n + 11) + f(n + 12) + f(n + 13) + 2 * q
  {
    Wide(f, n);
    q := Jump2048(f, n + 2048);
    var q4 := Jump2048(f, n + 4); var q6 := Jump2048(f, n + 6); var q7 := Jump2048(f, n + 7);
    var q9 := Jump2048(f, n + 9); var q12 := Jump2048(f, n + 12); var q15 := Jump2048(f, n + 15);
    q := q + q4 + q6 + q7 + q9 + q12 + q15 + 3 * f(n) + 5 * f(n + 2) + 6 * f(n + 3) + 2 * f(n + 4) +
      9 * f(n + 5) + 4 * f(n + 6) + 3 * f(n + 7) + 7 * f(n + 8) + f(n + 9) + 4 * f(n + 10) + 4 * f(n + 11) +
      4 * f(n + 13) + 2 * f(n + 14) + f(n + 15);
  }

  lemma Jump8192(f: nat -> int, n: nat) returns (q: int)
    requires Stream(f)
    ensures f(n + 8192) == f(n + 3) + f(n + 4) + f(n + 5) + f(n + 6) + f(n + 7) + f(n + 10) + f(n + 12) +
      f(n + 14) + f(n + 15) + 2 * q
  {
    Wide(f, n);
    q := Jump4096(f, n + 4096);
    var q0 := Jump4096(f, n); var q1 := Jump4096(f, n + 1); var q3 := Jump4096(f, n + 3);
    var q5 := Jump4096(f, n + 5); var q7 := Jump4096(f, n + 7); var q8 := Jump4096(f, n + 8);
    var q10 := Jump4096(f, n + 10); var q11 := Jump4096(f, n + 11); var q12 := Jump4096(f, n + 12);
    var q13 := Jump4096(f, n + 13);
    q := q + q0 + q1 + q3 + q5 + q7 + q8 + q10 + q11 + q12 + q13 + 3 * f(n) + 3 * f(n + 1) + 6 * f(n + 2) +
      7 * f(n + 3) + 8 * f(n + 4) + 10 * f(n + 5) + 9 * f(n + 6) + 10 * f(n + 7) + 10 * f(n + 8) +
      8 * f(n + 9) + 8 * f(n + 10) + 7 * f(n + 11) + 6 * f(n + 12) + 6 * f(n + 13) + 3 * f(n + 14) +
      3 * f(n + 15);
  }

  lemma Jump16384(f: nat -> int, n: nat) returns (q: int)
    requires Stream(f)
    ensures f(n + 16384) == f(n) + f(n + 2) + f(n + 4) + f(n + 6) + f(n + 7) + f(n + 8) + f(n + 9) +
      f(n + 11) + f(n + 13) + f(n + 14) + f(n + 15) + 2 * q
  {
    Wide(f, n);
    q := Jump8192(f, n + 8192);
    var q3 := Jump8192(f, n + 3); var q4 := Jump8192(f, n + 4); var q5 := Jump8192(f, n + 5);
    var q6 := Jump8192(f, n + 6); var q7 := Jump8192(f, n + 7); var q10 := Jump8192(f, n + 10);
    var q12 := Jump8192(f, n + 12); var q14 := Jump8192(f, n + 14); var q15 := Jump8192(f, n + 15);
    q := q + q3 + q4 + q5 + q6 + q7 + q10 + q12 + q14 + q15 + 4 * f(n) + 4 * f(n + 1) + 8 * f(n + 2) +
      12 * f(n + 3) + 10 * f(n + 4) + 14 * f(n + 5) + 12 * f(n + 6) + 9 * f(n + 7) + 10 * f(n + 8) +
      7 * f(n + 9) + 7 * f(n + 10) + 7 * f(n + 11) + 4 * f(n + 12) + 6 * f(n + 13) + 4 * f(n + 14) +
      4 * f(n + 15);
  }

  lemma Jump32768(f: nat -> int, n: nat) returns (q: int)
    requires Stream(f)
    ensures f(n + 32768) == f(n) + f(n + 2) + f(n + 3) + f(n + 7) + f(n + 8) + f(n + 9) + f(n + 10) +
      f(n + 11) + f(n + 12) + f(n + 13) + f(n + 14) + 2 * q
  {
    Wide(f, n);
    q := Jump16384(f, n + 16384);
    var q0 := Jump16384(f, n); var q2 := Jump16384(f, n + 2); var q4 := Jump16384(f, n + 4);
    var q6 := Jump16384(f, n + 6); var q7 := Jump16384(f, n + 7); var q8 := Jump16384(f, n + 8);
    var q9 := Jump16384(f, n + 9); var q11 := Jump16384(f, n + 11); var q13 := Jump16384(f, n + 13);
    var q14 := Jump16384(f, n + 14); var q15 := Jump16384(f, n + 15);
    q := q + q0 + q2 + q4 + q6 + q7 + q8 + q9 + q11 + q13 + q14 + q15 + 5 * f(n) + 6 * f(n + 1) +
      9 * f(n + 2) + 14 * f(n + 3) + 14 * f(n + 4) + 15 * f(n + 5) + 18 * f(n + 6) + 12 * f(n + 7) +
      14 * f(n + 8) + 11 * f(n + 9) + 10 * f(n + 10) + 10 * f(n + 11) + 7 * f(n + 12) + 9 * f(n + 13) +
      6 * f(n + 14) + 9 * f(n + 15);
  }

  lemma Jump65536(f: nat -> int, n: nat) returns (q: int)
    requires Stream(f)
    ensures f(n + 65536) == f(n + 1) + 2 * q
  {
    Wide(f, n);
    q := Jump32768(f, n + 32768);
    var q0 := Jump32768(f, n); var q2 := Jump32768(f, n + 2); var q3 := Jump32768(f, n + 3);
    var q7 := Jump32768(f, n + 7); var q8 := Jump32768(f, n + 8); var q9 := Jump32768(f, n + 9);
    var q10 := Jump32768(f, n + 10); var q11 := Jump32768(f, n + 11); var q12 := Jump32768(f, n + 12);
    var q13 := Jump32768(f, n + 13); var q14 := Jump32768(f, n + 14);
    q := q + q0 + q2 + q3 + q7 + q8 + q9 + q10 + q11 + q12 + q13 + q14 + 5 * f(n) + 3 * f(n + 1) +
      8 * f(n + 2) + 12 * f(n + 3) + 10 * f(n + 4) + 15 * f(n + 5) + 14 * f(n + 6) + 14 * f(n + 7) +
      14 * f(n + 8) + 14 * f(n + 9) + 14 * f(n + 10) + 12 * f(n + 11) + 10 * f(n + 12) + 8 * f(n + 13) +
      7 * f(n + 14) + 5 * f(n + 15);
  }

  lemma Jump273(f: nat -> int, n: nat) returns (q: int)
    requires Stream(f)
    ensures f(n + 273) == f(n + 2) + f(n + 5) + f(n + 6) + f(n + 8) + f(n + 10) + f(n + 12) + f(n + 13) +
      f(n + 14) + 2 * q
  {
    Wide(f, n);
    q := Jump17(f, n + 256);
    var q1 := Jump256(f, n + 1); var q3 := Jump256(f, n + 3); var q4 := Jump256(f, n + 4);
    var q6 := Jump256(f, n + 6);
    q := q + q1 + q3 + q4 + q6 + f(n + 4) + f(n + 7) + f(n + 9) + f(n + 11);
  }

  lemma Jump4369(f: nat -> int, n: nat) returns (q: int)
    requires Stream(f)
    ensures f(n + 4369) == f(n) + f(n + 1) + f(n + 2) + f(n + 3) + f(n + 10) + f(n + 11) + f(n + 12) +
      f(n + 13) + 2 * q
  {
    Wide(f, n);
    q := Jump273(f, n + 4096);
    var q2 := Jump4096(f, n + 2); var q5 := Jump4096(f, n + 5); var q6 := Jump4096(f, n + 6);
    var q8 := Jump4096(f, n + 8); var q10 := Jump4096(f, n + 10); var q12 := Jump4096(f, n + 12);
    var q13 := Jump4096(f, n + 13); var q14 := Jump4096(f, n + 14);
    q := q + q2 + q5 + q6 + q8 + q10 + q12 + q13 + q14 + 2 * f(n) + 2 * f(n + 1) + 5 * f(n + 2) +
      7 * f(n + 3) + 7 * f(n + 4) + 10 * f(n + 5) + 9 * f(n + 6) + 9 * f(n + 7) + 8 * f(n + 8) + 8 * f(n + 9) +
      7 * f(n + 10) + 6 * f(n + 11) + 5 * f(n + 12) + 6 * f(n + 13) + 4 * f(n + 14) + 4 * f(n + 15);
  }

  lemma Jump8738(f: nat -> int, n: nat) returns (q: int)
    requires Stream(f)
    ensures f(n + 8738) == f(n) + f(n + 2) + f(n + 6) + f(n + 7) + f(n + 12) + f(n + 15) + 2 * q
  {
    Wide(f, n);
    q := Jump4369(f, n + 4369);
    var q0 := Jump4369(f, n); var q1 := Jump4369(f, n + 1); var q2 := Jump4369(f, n + 2);
    var q3 := Jump4369(f, n + 3); var q10 := Jump4369(f, n + 10); var q11 := Jump4369(f, n + 11);
    var q12 := Jump4369(f, n + 12); var q13 := Jump4369(f, n + 13);
    q := q + q0 + q1 + q2 + q3 + q10 + q11 + q12 + q13 + f(n) + f(n + 1) + 2 * f(n + 2) + 3 * f(n + 3) +
      2 * f(n + 4) + 3 * f(n + 5) + 2 * f(n + 6) + 3 * f(n + 7) + 4 * f(n + 8) + 5 * f(n + 9) + 6 * f(n + 10) +
      6 * f(n + 11) + 6 * f(n + 12) + 6 * f(n + 13) + 4 * f(n + 14) + 2 * f(n + 15);
  }

  lemma Jump17476(f: nat -> int, n: nat) returns (q: int)
    requires Stream(f)
    ensures f(n + 17476) == f(n + 1) + f(n + 2) + f(n + 3) + f(n + 10) + f(n + 11) + f(n + 12) + f(n + 13) +
      2 * q
  {
    Wide(f, n);
    q := Jump8738(f, n + 8738);
    var q0 := Jump8738(f, n); var q2 := Jump8738(f, n + 2); var q6 := Jump8738(f, n + 6);
    var q7 := Jump8738(f, n + 7); var q12 := Jump8738(f, n + 12); var q15 := Jump8738(f, n + 15);
    q := q + q0 + q2 + q6 + q7 + q12 + q15 + 2 * f(n) + f(n + 1) + 3 * f(n + 2) + 4 * f(n + 3) + 3 * f(n + 4) +
      5 * f(n + 5) + 5 * f(n + 6) + 3 * f(n + 7) + 5 * f(n + 8) + 2 * f(n + 9) + f(n + 10) + 2 * f(n + 11) +
      f(n + 12) + 2 * f(n + 13) + 3 * f(n + 14) + f(n + 15);
  }

  lemma Jump21845(f: nat -> int, n: nat) returns (q: int)
    requires Stream(f)
    ensures f(n + 21845) == f(n + 1) + f(n + 3) + f(n + 6) + f(n + 7) + f(n + 10) + f(n + 11) + f(n + 13) +
      f(n + 15) + 2 * q
  {
    Wide(f, n);
    q := Jump4369(f, n + 17476);
    var q0 := Jump17476(f, n); var q1 := Jump17476(f, n + 1); var q2 := Jump17476(f, n + 2);
    var q3 := Jump17476(f, n + 3); var q10 := Jump17476(f, n + 10); var q11 := Jump17476(f, n + 11);
    var q12 := Jump17476(f, n + 12); var q13 := Jump17476(f, n + 13);
    q := q + q0 + q1 + q2 + q3 + q10 + q11 + q12 + q13 + f(n) + 2 * f(n + 2) + 2 * f(n + 3) + 2 * f(n + 4) +
      3 * f(n + 5) + 2 * f(n + 6) + 3 * f(n + 7) + 4 * f(n + 8) + 5 * f(n + 9) + 5 * f(n + 10) +
      5 * f(n + 11) + 6 * f(n + 12) + 5 * f(n + 13) + 4 * f(n + 14) + 2 * f(n + 15);
  }
}
