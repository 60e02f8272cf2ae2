/** The tick bitmap of a pool and the search inside one 256-tick word (Uniswap v3 Core, section 6.2.4). */
module TickBitmap {
  import opened Wrappers

  const TICKS_PER_WORD: int := 256

  /** word position -> positions of its set bits */
  type Bitmap = map<int, set<int>>

  /** `(compressed >> 8) as i16` */
  function WordPos(compressed: int): int {
    (compressed / TICKS_PER_WORD + 32768) % 65536 - 32768
  }

  function WordBits(words: Bitmap, compressed: int): set<int> {
    var w := WordPos(compressed);
    if w in words then words[w] else {}
  }

  /** The most significant set bit at or below `bit`. */
  function HighestAtOrBelow(bits: set<int>, bit: int): (r: Option<int>)
    ensures r.Some? ==> 0 <= r.value <= bit && r.value in bits
    ensures forall b :: 0 <= b <= bit && b in bits ==> r.Some? && b <= r.value
    decreases bit
  {
    if bit < 0 then None
    else if bit in bits then Some(bit)
    else HighestAtOrBelow(bits, bit - 1)
  }

  /** The least significant set bit at or above `bit`. */
  function LowestAtOrAbove(bits: set<int>, bit: int): (r: Option<int>)
    ensures r.Some? ==> bit <= r.value < TICKS_PER_WORD && r.value in bits
    ensures forall b :: bit <= b < TICKS_PER_WORD && b in bits ==> r.Some? && r.value <= b
    decreases TICKS_PER_WORD - bit
  {
    if bit >= TICKS_PER_WORD then None
    else if bit in bits then Some(bit)
    else LowestAtOrAbove(bits, bit + 1)
  }

  datatype NextTick = NextTick(tick: int, initialized: bool)

  /** `next_initialized_tick_within_one_word`: the next set tick, or the edge of the word. */
  function NextInitialized(words: Bitmap, tick: int, spacing: int, zeroForOne: bool): NextTick
    requires spacing >= 1
  {
    if zeroForOne then
      var c := tick / spacing;
      var bit := c % TICKS_PER_WORD;
      match HighestAtOrBelow(WordBits(words, c), bit)
      case Some(b) => NextTick((c - (bit - b)) * spacing, true)
      case None => NextTick((c - bit) * spacing, false)
    else
      var c := tick / spacing + 1;
      var bit := c % TICKS_PER_WORD;
      match LowestAtOrAbove(WordBits(words, c), bit)
      case Some(b) => NextTick((c + (b - bit)) * spacing, true)
      case None => NextTick((c + (TICKS_PER_WORD - 1 - bit)) * spacing, false)
  }

  /** The search moves strictly: at or below the tick going down, above it going up. */
  lemma SearchMoves(words: Bitmap, tick: int, spacing: int, zeroForOne: bool)
    requires spacing >= 1
    ensures var n := NextInitialized(words, tick, spacing, zeroForOne).tick;
            if zeroForOne then n <= tick else n > tick
  {
    var q := tick / spacing;
    FloorBrackets(tick, spacing);
    if zeroForOne {
      var bit := q % TICKS_PER_WORD;
      var k := match HighestAtOrBelow(WordBits(words, q), bit) case Some(b) => q - (bit - b) case None => q - bit;
      Scaled(k, q, spacing);
    } else {
      var bit := (q + 1) % TICKS_PER_WORD;
      var k := match LowestAtOrAbove(WordBits(words, q + 1), bit)
        case Some(b) => q + 1 + (b - bit)
        case None => q + 1 + (TICKS_PER_WORD - 1 - bit);
      Scaled(q + 1, k, spacing);
    }
  }

  lemma FloorBrackets(tick: int, spacing: int)
    requires spacing >= 1
    ensures (tick / spacing) * spacing <= tick < (tick / spacing + 1) * spacing
  {
    assert (tick / spacing + 1) * spacing == (tick / spacing) * spacing + spacing;
  }

  lemma Scaled(a: int, b: int, s: int)
    requires a <= b && s >= 1
    ensures a * s <= b * s
  {
  }

  /**
   An uninitialized answer really skips nothing: no set bit of the word lies between the
   compressed tick and the answer, both in the same word.
   */
  lemma SearchSkipsNothing(words: Bitmap, tick: int, spacing: int, zeroForOne: bool)
    requires spacing >= 1
    ensures
      var r := NextInitialized(words, tick, spacing, zeroForOne);
      var from := if zeroForOne then tick / spacing else tick / spacing + 1;
      exists k :: r.tick == k * spacing && k / TICKS_PER_WORD == from / TICKS_PER_WORD
        && (r.initialized ==> k % TICKS_PER_WORD in WordBits(words, from))
        && (forall c :: c / TICKS_PER_WORD == from / TICKS_PER_WORD
              && (if zeroForOne then k < c <= from else from <= c < k)
              ==> c % TICKS_PER_WORD !in WordBits(words, from))
        && (r.initialized || k % TICKS_PER_WORD !in WordBits(words, from))
        && (r.initialized || k % TICKS_PER_WORD == if zeroForOne then 0 else TICKS_PER_WORD - 1)
  {
    var r := NextInitialized(words, tick, spacing, zeroForOne);
    var from := if zeroForOne then tick / spacing else tick / spacing + 1;
    var bit := from % TICKS_PER_WORD;
    var bits := WordBits(words, from);
    var k :=
      if zeroForOne then
        match HighestAtOrBelow(bits, bit)
        case Some(b) => from - (bit - b)
        case None => from - bit
      else
        match LowestAtOrAbove(bits, bit)
        case Some(b) => from + (b - bit)
        case None => from + (TICKS_PER_WORD - 1 - bit);
    assert r.tick == k * spacing;
    assert k / TICKS_PER_WORD == from / TICKS_PER_WORD;
  }

  // ---- The search over ticks ----

  /** Tick c * spacing is set, read off the words by plain division. */
  predicate IsSet(words: Bitmap, c: int) {
    c / 256 in words && c % 256 in words[c / 256]
  }

  /** Words whose position fits 16 bits, far beyond the tick range, are not aliased. */
  predicate Unaliased(c: int) {
    -8388608 <= c < 8388608
  }

  lemma PlainWord(c: int)
    requires Unaliased(c)
    ensures WordPos(c) == c / 256
  {
  }

  /**
   The search returns the nearest set tick of the word in its direction, or the last tick of the word
   if none is set; it is called initialized exactly if it is set.
   */
  lemma NearestTick(words: Bitmap, tick: int, spacing: int, zeroForOne: bool) returns (k: int)
    requires spacing >= 1 && Unaliased(tick / spacing) && Unaliased(tick / spacing + 1)
    ensures
      var r := NextInitialized(words, tick, spacing, zeroForOne);
      var from := if zeroForOne then tick / spacing else tick / spacing + 1;
      && r.tick == k * spacing && (r.initialized <==> IsSet(words, k))
      && k / 256 == from / 256 && (if zeroForOne then k <= from else from <= k)
      && (r.initialized || k % 256 == if zeroForOne then 0 else 255)
      && forall c :: (if zeroForOne then k < c <= from else from <= c < k) ==> !IsSet(words, c)
  {
    hide WordPos, NextInitialized;
    var r := NextInitialized(words, tick, spacing, zeroForOne);
    var from := if zeroForOne then tick / spacing else tick / spacing + 1;
    SearchSkipsNothing(words, tick, spacing, zeroForOne);
    k :| r.tick == k * spacing && k / TICKS_PER_WORD == from / TICKS_PER_WORD
         && (r.initialized ==> k % TICKS_PER_WORD in WordBits(words, from))
         && (forall c :: c / TICKS_PER_WORD == from / TICKS_PER_WORD
               && (if zeroForOne then k < c <= from else from <= c < k)
               ==> c % TICKS_PER_WORD !in WordBits(words, from))
         && (r.initialized || k % TICKS_PER_WORD !in WordBits(words, from))
         && (r.initialized || k % TICKS_PER_WORD == if zeroForOne then 0 else TICKS_PER_WORD - 1);
    forall c | c / 256 == from / 256 ensures IsSet(words, c) <==> c % TICKS_PER_WORD in WordBits(words, from) {
      PlainWord(from);
    }
    SearchMoves(words, tick, spacing, zeroForOne);
    if zeroForOne && k > from {
      Scaled(from + 1, k, spacing);
      FloorBrackets(tick, spacing);
    }
    if !zeroForOne && k < from {
      Scaled(k, from - 1, spacing);
      FloorBrackets(tick, spacing);
    }
  }
}
