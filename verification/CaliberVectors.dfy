/** Quotes recorded on chain for three books, which the loops reproduce to the last unit. */
module CaliberVectors {
  import opened Wrappers
  import opened SwapMath
  import opened Caliber
  import opened CaliberLoops

  /** The three rungs all three books share. */
  function Rungs(): seq<Rung> {
    [Rung(10, 200_000_000), Rung(50, 900_000_000), Rung(300, 1_000_000_000)]
  }

  /** Book 335c40.., whose position is of the current block. */
  function BookAtPosition(): Book {
    Book(Rungs(), 500, 1_900_370_065_664, 105, 1_000_000_000_000, 200, 261_500_663, true,
         4_035_636_208_082_082_157, 13_990_178_462)
  }

  /** Book d81a7a.., whose position is of an older block. */
  function BookOfOldPosition(): Book {
    Book(Rungs(), 500, 75_111_231_784, 283, 1_000, 200, 174_247_639, false, 6_210_305_049, 1_760_056_227)
  }

  /** Book 55c40a.., quoted forward through all rungs. */
  function BookForward(): Book {
    Book(Rungs(), 500, 64_749_328_871_563, 30, 100, 200, 23_995_200, false, 0, 16_460_388_407)
  }

  // ---- Reverse ----

  lemma Quotient(a: int, b: int, q: int)
    requires b > 0 && b * q <= a < b * q + b
    ensures FloorDiv(a, b) == Some(q)
  {
    FloorExactly(a, b, q);
    FloorExactly(a, b, q + 1);
    assert b * (q + 1) == b * q + b;
  }

  /** What a rung gives, from the values of its fraction. */
  lemma GivesValue(p: Book, i: nat, offset: int, taken: int, rise: int, top: int, bottom: int, out: int)
    requires i < |p.ladder| && p.ladder[i].y > 0
    requires
      var y, a, b := p.ladder[i].y, Markup(p, p.ladder[i].x), Markup(p, p.XNext(i));
      && y * rise <= (b - a) * offset < y * rise + y
      && top == taken * MILLION * p.Unit() * 2 * (y - offset)
      && bottom == p.field0 * (2 * (y - offset) * (a + rise) + taken * (b - (a + rise)))
    requires bottom > 0 && bottom * out <= top < bottom * out + bottom
    ensures RungGives(p, i, offset, taken) == Some(out)
  {
    hide FloorDiv;
    Quotient((Markup(p, p.XNext(i)) - Markup(p, p.ladder[i].x)) * offset, p.ladder[i].y, rise);
    Quotient(top, bottom, out);
  }

  /** At the current position the first two rungs lie behind in part: the quotes of one unit and of 10^9. */
  lemma QuotesAtPosition()
    ensures ReverseLoop(BookAtPosition(), 1) == Some(526_122_805)
    ensures ReverseLoop(BookAtPosition(), 1_000_000_000) == Some(525_943_015_783_951_046)
  {
    hide RungGives, TailGives;
    var p := BookAtPosition();
    GivesValue(BookAtPosition(), 1, 61_500_663, 1, 17,
               1_676_998_674_000_000_000_000_000_000_000_000_000, 3_187_466_230_138_062_900_961_179_904,
               526_122_805);
    GivesValue(BookAtPosition(), 1, 61_500_663, 838_499_337, 17,
               1_406_162_276_298_879_138_000_000_000_000_000_000_000_000_000, 3_187_837_506_093_966_655_874_171_136,
               441_102_243_640_341_382);
    GivesValue(BookAtPosition(), 2, 0, 161_300_663, 0,
               322_601_326_000_000_000_000_000_000_000_000_000_000_000_000, 3_802_432_696_556_956_318_367_616_000,
               84_840_772_143_609_664);
    assert ReverseRest(p, 1, 200_000_000, false, 1) == Some(526_122_805);
    assert ReverseRest(p, 0, 0, false, 1) == Some(526_122_805);
    assert ReverseRest(p, 2, 1_100_000_000, true, 161_300_663) == Some(84_840_772_143_609_664);
    assert ReverseRest(p, 1, 200_000_000, false, 999_800_000) == Some(525_943_015_783_951_046);
    assert ReverseRest(p, 0, 0, false, 999_800_000) == Some(525_943_015_783_951_046);
  }

  /** The position of an older block does not count: the quotes start on the first rung. */
  lemma QuotesOfOldPosition()
    ensures ReverseLoop(BookOfOldPosition(), 1) == Some(13)
    ensures ReverseLoop(BookOfOldPosition(), 100_000_000) == Some(1_330_689_339)
  {
    hide RungGives, TailGives;
    var p := BookOfOldPosition();
    GivesValue(BookOfOldPosition(), 0, 0, 1, 0,
               400_000_000_000_000_000_000_000_000, 30_053_295_749_968_089_249_271_360,
               13);
    GivesValue(BookOfOldPosition(), 0, 0, 99_980_000, 0,
               39_992_000_000_000_000_000_000_000_000_000_000, 30_053_596_134_803_235_372_800_000,
               1_330_689_339);
    assert ReverseRest(p, 0, 0, false, 1) == Some(13);
    assert ReverseRest(p, 0, 0, false, 99_980_000) == Some(1_330_689_339);
  }

  // ---- Forward ----

  lemma ThresholdValue(p: Book, i: nat, worth: int, th: int)
    requires i < |p.ladder| && p.field0 > 0
    requires
      var sum := Discount(p, p.ladder[i].x) + Discount(p, p.XNext(i));
      sum > 0 && sum * worth <= MILLION * 2 * p.ladder[i].y < sum * worth + sum
    requires p.field0 * th <= worth * p.Unit() + p.field0 - 1 < p.field0 * th + p.field0
    ensures RungThreshold(p, i) == Some(th)
  {
    hide FloorDiv;
    Quotient(MILLION * 2 * p.ladder[i].y, Discount(p, p.ladder[i].x) + Discount(p, p.XNext(i)), worth);
    Quotient(worth * p.Unit() + p.field0 - 1, p.field0, th);
  }

  lemma PartValue(p: Book, i: nat, xp: int, r: int, out: int)
    requires i < |p.ladder| && p.Unit() > 0
    requires p.Unit() * r <= p.field0 * xp < p.Unit() * r + p.Unit()
    requires
      var a, b, y := Discount(p, p.ladder[i].x), Discount(p, p.XNext(i)), p.ladder[i].y;
      var bottom := MILLION * 2 * y + r * (a - b);
      bottom > 0 && bottom * out <= r * 2 * y * a < bottom * out + bottom
    ensures RungPart(p, i, xp) == Some(out)
  {
    hide FloorDiv;
    var a, b, y := Discount(p, p.ladder[i].x), Discount(p, p.XNext(i)), p.ladder[i].y;
    Quotient(p.field0 * xp, p.Unit(), r);
    Quotient(r * 2 * y * a, MILLION * 2 * y + r * (a - b), out);
  }

  lemma TailValue(p: Book, xp: int, out: int)
    requires p.ladder != [] && p.Unit() > 0
    requires
      var top, bottom := p.field0 * xp * Discount(p, p.XNext(|p.ladder| - 1)), p.Unit() * MILLION;
      bottom * out <= top < bottom * out + bottom
    ensures TailPart(p, xp) == Some(out)
  {
    hide FloorDiv;
    Quotient(p.field0 * xp * Discount(p, p.XNext(|p.ladder| - 1)), p.Unit() * MILLION, out);
  }

  /** Part of the first rung, all rungs with the extrapolation, and the reserve: 1, 10^7 and 10^8 units. */
  lemma QuotesForward()
    ensures ForwardLoop(BookForward(), 1) == Some(646)
    ensures ForwardLoop(BookForward(), 10_000_000) == Some(6_469_230_696)
    ensures ForwardLoop(BookForward(), 100_000_000) == Some(16_460_388_407)
  {
    hide RungThreshold, RungPart, TailPart;
    var p := BookForward();
    ThresholdValue(p, 0, 200_012_000, 308_903);
    ThresholdValue(p, 1, 900_184_537, 1_390_261);
    ThresholdValue(p, 2, 1_000_580_336, 1_545_314);
    PartValue(p, 0, 1, 647, 646);
    TailValue(p, 6_753_522, 4_369_230_696);
    TailValue(p, 96_735_522, 62_583_613_726);
    assert ForwardRest(p, 0, 1) == Some(646);
    assert ForwardRest(p, 3, 6_753_522) == Some(4_369_230_696);
    assert ForwardRest(p, 2, 8_298_836) == Some(5_369_230_696);
    assert ForwardRest(p, 1, 9_689_097) == Some(6_269_230_696);
    assert ForwardRest(p, 3, 96_735_522) == Some(62_583_613_726);
    assert ForwardRest(p, 2, 98_280_836) == Some(63_583_613_726);
    assert ForwardRest(p, 1, 99_671_097) == Some(64_483_613_726);
  }
}
