/**
 The colour-pair cache of the terminal interface. A pair of colours gets the next number of a `short`
 counter when it is first used; what the terminal accepts of them depends on its own limit.
 */
module ColorCache {
  import opened Wrappers
  import opened CIntegers
  import opened Bits

  type Color = n: nat | n < 0x1_0000_0000

  datatype ColorPair = ColorPair(color: Color, background: Color)

  /** A 64-bit word read as a signed number. */
  function Signed64(bits: nat): (n: int)
    requires bits < 0x1_0000_0000_0000_0000
    ensures -0x8000_0000_0000_0000 <= n < 0x8000_0000_0000_0000
  {
    if bits < 0x8000_0000_0000_0000 then bits else bits - 0x1_0000_0000_0000_0000
  }

  /** The cache key as it is computed: `(color << 32) | (background & 0xffffffff)`. */
  function PackedKey(color: Color, background: Color): nat {
    Or(ShiftLeft(color, 32, 64), And(background, 0xffff_ffff))
  }

  /** The cache key, a signed 64-bit number: the two colours side by side. */
  function Key(color: Color, background: Color): (key: int)
    ensures -0x8000_0000_0000_0000 <= key < 0x8000_0000_0000_0000
  {
    Signed64(color * 0x1_0000_0000 + background)
  }

  /** The two halves do not overlap, so shift and "or" put them side by side. */
  lemma OrIsPlus(color: Color, background: Color)
    ensures PackedKey(color, background) < 0x1_0000_0000_0000_0000
    ensures Signed64(PackedKey(color, background)) == Key(color, background)
  {
    PowersOfTwo();
    var high := color * Pow2(32);
    assert ShiftLeft(color, 32, 64) == high;
    AndIsRemainder(background, 32);
    assert And(background, 0xffff_ffff) == background;
    OrCommutes(high, background);
    OrIsSum(background, color, 32);
  }

  lemma KeyInjective(p: ColorPair, q: ColorPair)
    ensures Key(p.color, p.background) == Key(q.color, q.background) <==> p == q
  {}

  /** The lookup by the bare colour in `registerChannel` never finds the key of a coloured pair. */
  lemma BareColorIsNoKey(color: Color, p: ColorPair)
    ensures p.color != 0 ==> color != Key(p.color, p.background)
  {}

  // ---------------------------------------------------------------- numbers of pairs

  /** A value of the counter, a 16-bit integer. */
  function Wrap16(n: int): (r: int)
    ensures -32768 <= r <= 32767
  {
    (n + 32768) % 65536 - 32768
  }

  lemma Wrap16Small(n: int)
    ensures Wrap16(n) == n <==> -32768 <= n <= 32767
  {}

  lemma Wrap16Same(m: int, n: int)
    requires m <= n < m + 65536
    ensures Wrap16(m) == Wrap16(n) <==> m == n
  {}

  lemma Wrap16Next(n: int)
    ensures Wrap16(Wrap16(n) + 1) == Wrap16(n + 1)
  {}

  /** The number of the pair that was the `i`-th to be used, counting from 0. */
  function IdOf(i: nat): (r: int)
    ensures -32768 <= r <= 32767
  {
    Wrap16(i + 1)
  }

  ghost predicate IdsDiffer(n: nat) {
    forall i: nat, j: nat :: i < j < n ==> IdOf(i) != IdOf(j)
  }

  /** The first `n` numbers are different exactly up to `n == 65536`. */
  lemma WhenIdsDiffer(n: nat)
    ensures IdsDiffer(n) <==> n <= 65536
  {
    if n > 65536 {
      assert IdOf(0) == 1 && IdOf(65536) == 1;
    } else {
      forall i: nat, j: nat | i < j < n
        ensures IdOf(i) != IdOf(j)
      {
        Wrap16Same(i + 1, j + 1);
      }
    }
  }

  ghost predicate IsUsedId(id: int, n: nat) {
    exists i: nat :: i < n && IdOf(i) == id
  }

  /** The numbers in use are 1 up to the counter, counter excluded. */
  ghost predicate IdsAreAPrefix(n: nat) {
    forall id: int :: IsUsedId(id, n) <==> 1 <= id < Wrap16(n + 1)
  }

  /** They are exactly while fewer than 32767 pairs have been used. */
  lemma WhenIdsAreAPrefix(n: nat)
    ensures IdsAreAPrefix(n) <==> n < 32767
  {
    if n < 32767 {
      forall id: int
        ensures IsUsedId(id, n) <==> 1 <= id < Wrap16(n + 1)
      {
        if 1 <= id < n + 1 {
          assert IdOf(id - 1) == id;
        }
      }
    } else {
      assert IdOf(32766) == 32767;
      assert IsUsedId(32767, n);
      assert !(32767 < Wrap16(n + 1));
    }
  }

  // ---------------------------------------------------------------- pairs in order of first use

  function Use(pairs: seq<ColorPair>, p: ColorPair): seq<ColorPair> {
    if p in pairs then pairs else pairs + [p]
  }

  function IndexOf(pairs: seq<ColorPair>, p: ColorPair): (i: nat)
    ensures i <= |pairs|
    ensures i < |pairs| <==> p in pairs
    ensures i < |pairs| ==> pairs[i] == p
  {
    if pairs == [] then 0
    else
      var i := IndexOf(pairs[..|pairs| - 1], p);
      if i < |pairs| - 1 then i else if pairs[|pairs| - 1] == p then |pairs| - 1 else |pairs|
  }

  ghost predicate NoRepeats(pairs: seq<ColorPair>) {
    forall i, j :: 0 <= i < j < |pairs| ==> pairs[i] != pairs[j]
  }

  datatype Event =
    | Register(id: int, name: string, color: Color, background: Color)
    | Draw(channelId: int, messageColor: Color)

  datatype Run = Start | Then(before: Run, event: Event)

  /** The pair an event asks for, if any. */
  function Wanted(e: Event): Option<ColorPair> {
    match e
    case Register(_, _, color, background) => if color == 0 then None else Some(ColorPair(color, background))
    case Draw(_, color) => if color == 0 then None else Some(ColorPair(color, 0))
  }

  /** The pairs after one event: registration stops at the terminal's limit, drawing does not. */
  function Step(pairs: seq<ColorPair>, e: Event, colorPairs: int): seq<ColorPair> {
    match Wanted(e)
    case None => pairs
    case Some(p) => if e.Register? && Wrap16(|pairs| + 1) >= colorPairs then pairs else Use(pairs, p)
  }

  function PairsAfter(r: Run, colorPairs: int): seq<ColorPair> {
    match r
    case Start => []
    case Then(before, e) => Step(PairsAfter(before, colorPairs), e, colorPairs)
  }

  function AllWanted(r: Run): set<ColorPair> {
    match r
    case Start => {}
    case Then(before, e) => AllWanted(before) + (match Wanted(e) case None => {} case Some(p) => {p})
  }

  /** In any run the cache holds only pairs that were asked for, each once and with a colour. */
  lemma {:induction false} PairsAreWantedOnce(r: Run, colorPairs: int)
    ensures var pairs := PairsAfter(r, colorPairs);
            NoRepeats(pairs) && forall p :: p in pairs ==> p in AllWanted(r) && p.color != 0
  {
    if r.Then? {
      PairsAreWantedOnce(r.before, colorPairs);
    }
  }

  lemma {:induction false} NoRepeatsFit(pairs: seq<ColorPair>, wanted: set<ColorPair>)
    requires NoRepeats(pairs) && forall p :: p in pairs ==> p in wanted
    ensures |pairs| <= |wanted|
  {
    if pairs != [] {
      NoRepeatsFit(pairs[..|pairs| - 1], wanted - {pairs[|pairs| - 1]});
    }
  }

  lemma SubsetSize(a: set<ColorPair>, b: set<ColorPair>)
    requires a <= b
    ensures |a| <= |b|
  {
    if a != {} {
      var x :| x in a;
      SubsetSize(a - {x}, b - {x});
    }
  }

  lemma RoomForOne(pairs: seq<ColorPair>, wanted: set<ColorPair>, p: ColorPair, colorPairs: int)
    requires NoRepeats(pairs) && (forall q :: q in pairs ==> q in wanted) && p in wanted
    requires |wanted| < colorPairs && |wanted| < 32767
    ensures p in pairs || Wrap16(|pairs| + 1) < colorPairs
  {
    if p !in pairs {
      NoRepeatsFit(pairs, wanted - {p});
      assert |wanted - {p}| == |wanted| - 1;
      Wrap16Small(|pairs| + 1);
    }
  }

  /** While the terminal has room for all the pairs a run asks for, every one of them gets a number. */
  lemma {:induction false} NobodyIsTurnedAway(r: Run, colorPairs: int)
    requires |AllWanted(r)| < colorPairs && |AllWanted(r)| < 32767
    ensures forall p :: p in AllWanted(r) <==> p in PairsAfter(r, colorPairs)
  {
    if r.Then? {
      SubsetSize(AllWanted(r.before), AllWanted(r));
      NobodyIsTurnedAway(r.before, colorPairs);
      var pairs := PairsAfter(r.before, colorPairs);
      PairsAreWantedOnce(r.before, colorPairs);
      if Wanted(r.event).Some? {
        RoomForOne(pairs, AllWanted(r), Wanted(r.event).value, colorPairs);
      }
    }
  }

  predicate OnlyRegisters(r: Run) {
    match r
    case Start => true
    case Then(before, e) => OnlyRegisters(before) && e.Register?
  }

  /** Registrations alone leave the terminal's last number free, if its limit is in the range of the counter. */
  lemma {:induction false} RegistrationsStayBelow(r: Run, colorPairs: int)
    requires OnlyRegisters(r) && 0 < colorPairs <= 32767
    ensures |PairsAfter(r, colorPairs)| < colorPairs
  {
    if r.Then? {
      RegistrationsStayBelow(r.before, colorPairs);
      Wrap16Small(|PairsAfter(r.before, colorPairs)| + 1);
    }
  }

  /** A larger limit never stops anything. */
  lemma NoLimitBeyondTheCounter(r: Run, colorPairs: int)
    requires r.Then? && Wanted(r.event).Some? && colorPairs > 32767
    ensures Wanted(r.event).value in PairsAfter(r, colorPairs)
  {}

  // ---------------------------------------------------------------- the cache

  ghost predicate IsCached(cache: map<int, int>, p: ColorPair, id: int) {
    var key := Key(p.color, p.background);
    key in cache && cache[key] == id
  }

  ghost predicate IsKeyOf(key: int, pairs: seq<ColorPair>) {
    exists i: nat :: i < |pairs| && key == Key(pairs[i].color, pairs[i].background)
  }

  /** The cache holds exactly the pairs, each with its number. */
  ghost predicate Caches(cache: map<int, int>, pairs: seq<ColorPair>) {
    (forall i: nat :: i < |pairs| ==> IsCached(cache, pairs[i], IdOf(i))) &&
    (forall key :: key in cache ==> IsKeyOf(key, pairs))
  }

  lemma CacheHoldsThePairs(cache: map<int, int>, pairs: seq<ColorPair>, p: ColorPair)
    requires Caches(cache, pairs)
    ensures Key(p.color, p.background) in cache <==> p in pairs
    ensures p in pairs ==> IsCached(cache, p, IdOf(IndexOf(pairs, p)))
  {
    var key := Key(p.color, p.background);
    if key in cache {
      assert IsKeyOf(key, pairs);
      var i: nat :| i < |pairs| && key == Key(pairs[i].color, pairs[i].background);
      KeyInjective(p, pairs[i]);
    }
  }

  lemma CacheOneMore(cache: map<int, int>, pairs: seq<ColorPair>, p: ColorPair)
    requires Caches(cache, pairs) && p !in pairs
    ensures Caches(cache[Key(p.color, p.background) := IdOf(|pairs|)], pairs + [p])
  {
    var key, pairs' := Key(p.color, p.background), pairs + [p];
    var cache' := cache[key := IdOf(|pairs|)];
    forall i: nat | i < |pairs'|
      ensures IsCached(cache', pairs'[i], IdOf(i))
    {
      if i < |pairs| {
        assert IsCached(cache, pairs[i], IdOf(i)) && pairs[i] in pairs;
        KeyInjective(p, pairs[i]);
      }
    }
    forall k | k in cache'
      ensures IsKeyOf(k, pairs')
    {
      if k == key {
        assert pairs'[|pairs|] == p;
      } else {
        assert IsKeyOf(k, pairs);
        var i: nat :| i < |pairs| && k == Key(pairs[i].color, pairs[i].background);
        assert pairs'[i] == pairs[i];
      }
    }
  }

  /** `init_pair` takes a number only if it is in range. */
  predicate IsAccepted(id: int, colorPairs: int) { 0 < id < colorPairs }

  ghost predicate IsShown(shown: map<int, ColorPair>, pairs: seq<ColorPair>, colorPairs: int, i: nat)
    requires i < |pairs|
  {
    var id := IdOf(i);
    IsAccepted(id, colorPairs) && |pairs| <= i + 65536 ==> id in shown && shown[id] == pairs[i]
  }

  /** The terminal shows, for each number it accepted, the last pair that was given this number. */
  ghost predicate Shows(shown: map<int, ColorPair>, pairs: seq<ColorPair>, colorPairs: int) {
    (forall id :: id in shown ==> IsAccepted(id, colorPairs)) &&
    (forall i: nat :: i < |pairs| ==> IsShown(shown, pairs, colorPairs, i))
  }

  lemma ShowOneMore(shown: map<int, ColorPair>, pairs: seq<ColorPair>, colorPairs: int, p: ColorPair)
    requires Shows(shown, pairs, colorPairs)
    ensures var id := IdOf(|pairs|);
            Shows(if IsAccepted(id, colorPairs) then shown[id := p] else shown, pairs + [p], colorPairs)
  {
    var id, pairs' := IdOf(|pairs|), pairs + [p];
    var shown' := if IsAccepted(id, colorPairs) then shown[id := p] else shown;
    forall i: nat | i < |pairs'|
      ensures IsShown(shown', pairs', colorPairs, i)
    {
      if i < |pairs| {
        assert IsShown(shown, pairs, colorPairs, i);
        if |pairs'| <= i + 65536 {
          Wrap16Same(i + 1, |pairs| + 1);
        }
      }
    }
  }

  lemma NewPairIsLast(pairs: seq<ColorPair>, p: ColorPair)
    requires p !in pairs
    ensures IndexOf(pairs + [p], p) == |pairs|
  {
    assert (pairs + [p])[..|pairs|] == pairs;
  }

  /** The last pair of `n` with the same number as pair `i`. */
  lemma LastWithTheNumber(i: nat, n: nat) returns (j: nat)
    requires i < n
    ensures i <= j < n <= j + 65536 && IdOf(j) == IdOf(i) && (j == i <==> n <= i + 65536)
    decreases n - i
  {
    if n <= i + 65536 {
      j := i;
    } else {
      j := LastWithTheNumber(i + 65536, n);
      assert (i + 65536 + 1 + 32768) % 65536 == (i + 1 + 32768) % 65536;
    }
  }

  /** For any number of pairs: a pair's number is its place in the order of first use if and only if that is one of
      the first 32767, and the terminal shows the pair for its number if and only if it accepts the number and has
      not been given it again since, 65536 pairs later. */
  lemma ShownAsAsked(shown: map<int, ColorPair>, pairs: seq<ColorPair>, colorPairs: int, p: ColorPair)
    requires Shows(shown, pairs, colorPairs) && NoRepeats(pairs) && p in pairs
    ensures var i := IndexOf(pairs, p);
            var id := IdOf(i);
            (id == i + 1 <==> i < 32767) &&
            (id in shown && shown[id] == p <==> IsAccepted(id, colorPairs) && |pairs| <= i + 65536)
  {
    var i := IndexOf(pairs, p);
    Wrap16Small(i + 1);
    var j := LastWithTheNumber(i, |pairs|);
    assert IsShown(shown, pairs, colorPairs, j);
    if j != i {
      assert pairs[i] != pairs[j];
    }
  }

  ghost predicate Consistent(pairs: seq<ColorPair>, cache: map<int, int>, nextId: int, shown: map<int, ColorPair>,
                             colorPairs: int) {
    NoRepeats(pairs) && (forall p :: p in pairs ==> p.color != 0) &&
    nextId == Wrap16(|pairs| + 1) && Caches(cache, pairs) && Shows(shown, pairs, colorPairs)
  }

  lemma OneMore(pairs: seq<ColorPair>, cache: map<int, int>, nextId: int, shown: map<int, ColorPair>, colorPairs: int,
                p: ColorPair)
    requires Consistent(pairs, cache, nextId, shown, colorPairs) && p.color != 0 && p !in pairs
    ensures Consistent(pairs + [p], cache[Key(p.color, p.background) := IdOf(|pairs|)], Wrap16(|pairs| + 2),
                       if IsAccepted(IdOf(|pairs|), colorPairs) then shown[IdOf(|pairs|) := p] else shown, colorPairs)
  {
    CacheOneMore(cache, pairs, p);
    ShowOneMore(shown, pairs, colorPairs, p);
  }

  datatype ConsoleChannel = ConsoleChannel(name: string, color: Color, colorPairId: int)

  class ColorTable {
    /** COLOR_PAIRS, the terminal's limit. */
    const colorPairs: int
    var colorCache: map<int, int>
    var nextColorPairId: int
    var channels: map<int, ConsoleChannel>
    /** What the terminal shows for each number it accepted. */
    var shown: map<int, ColorPair>
    /** The pairs in order of first use. */
    ghost var pairs: seq<ColorPair>

    ghost predicate Valid()
      reads this
    {
      Consistent(pairs, colorCache, nextColorPairId, shown, colorPairs)
    }

    constructor (colorPairs: int)
      ensures this.colorPairs == colorPairs && Valid() && pairs == [] && channels == map[]
    {
      this.colorPairs := colorPairs;
      colorCache, nextColorPairId, channels, shown, pairs := map[], 1, map[], map[], [];
    }

    method InitPair(id: int, p: ColorPair)
      modifies this`shown
      ensures shown == if IsAccepted(id, colorPairs) then old(shown)[id := p] else old(shown)
    {
      if IsAccepted(id, colorPairs) {
        shown := shown[id := p];
      }
    }

    method NextId() returns (id: int)
      requires nextColorPairId == Wrap16(|pairs| + 1)
      modifies this`nextColorPairId
      ensures id == IdOf(|pairs|) && nextColorPairId == Wrap16(|pairs| + 2)
    {
      id := nextColorPairId;
      Wrap16Next(|pairs| + 1);
      nextColorPairId := Wrap16(nextColorPairId + 1);
    }

    method InitializeColor(color: Color, background: Color) returns (colorPairId: int)
      requires Valid() && color != 0
      modifies this`colorCache, this`nextColorPairId, this`shown, this`pairs
      ensures Valid()
      ensures pairs == Use(old(pairs), ColorPair(color, background))
      ensures colorPairId == IdOf(IndexOf(pairs, ColorPair(color, background)))
    {
      ghost var p := ColorPair(color, background);
      OrIsPlus(color, background);
      var combinedColor := Signed64(PackedKey(color, background));
      CacheHoldsThePairs(colorCache, pairs, p);
      if combinedColor !in colorCache {
        NewPairIsLast(pairs, p);
        colorPairId := AddPair(combinedColor, ColorPair(color, background));
      } else {
        colorPairId := colorCache[combinedColor];
      }
    }

    /** The first use of a pair. */
    method AddPair(combinedColor: int, p: ColorPair) returns (colorPairId: int)
      requires Valid() && p.color != 0 && p !in pairs && combinedColor == Key(p.color, p.background)
      modifies this`colorCache, this`nextColorPairId, this`shown, this`pairs
      ensures Valid() && pairs == old(pairs) + [p] && colorPairId == IdOf(|old(pairs)|)
    {
      OneMore(pairs, colorCache, nextColorPairId, shown, colorPairs, p);
      colorPairId := NextId();
      InitPair(colorPairId, p);
      colorCache := colorCache[combinedColor := colorPairId];
      pairs := pairs + [p];
    }

    /** A coloured channel gets its pair's number while the counter is below the limit, and 0 after that
        even if the pair has a number already. */
    method RegisterChannel(id: int, name: string, color: Color, background: Color)
      requires Valid()
      modifies this
      ensures Valid() && pairs == Step(old(pairs), Register(id, name, color, background), colorPairs)
      ensures var pairId := if color == 0 || Wrap16(|old(pairs)| + 1) >= colorPairs then 0
                            else IdOf(IndexOf(pairs, ColorPair(color, background)));
              channels == old(channels)[id := ConsoleChannel(name, color, pairId)]
    {
      var colorPairId: int;
      if color != 0 {
        if color !in colorCache {
          if nextColorPairId < colorPairs {
            colorPairId := InitializeColor(color, background);
          } else {
            colorPairId := 0;
          }
        } else {
          colorPairId := colorCache[color];
          BareColorMisses(colorCache, pairs, color);
          assert false;
        }
      } else {
        colorPairId := 0;
      }
      channels := channels[id := ConsoleChannel(name, color, colorPairId)];
    }

    /** The pair number that a message is drawn with. */
    method PairForMessage(channelId: int, messageColor: Color) returns (colorPairId: int)
      requires Valid()
      modifies this`colorCache, this`nextColorPairId, this`shown, this`pairs
      ensures Valid() && pairs == Step(old(pairs), Draw(channelId, messageColor), colorPairs)
      ensures colorPairId ==
              if messageColor != 0 then IdOf(IndexOf(pairs, ColorPair(messageColor, 0)))
              else if channelId in channels then channels[channelId].colorPairId
              else 0
    {
      colorPairId := 0;
      if channelId in channels {
        colorPairId := channels[channelId].colorPairId;
      }
      if messageColor != 0 {
        colorPairId := InitializeColor(messageColor, 0);
      }
    }
  }

  lemma BareColorMisses(cache: map<int, int>, pairs: seq<ColorPair>, color: Color)
    requires Caches(cache, pairs) && forall p :: p in pairs ==> p.color != 0
    ensures color !in cache
  {
    forall key | key in cache
      ensures key != color
    {
      assert IsKeyOf(key, pairs);
      var i: nat :| i < |pairs| && key == Key(pairs[i].color, pairs[i].background);
      BareColorIsNoKey(color, pairs[i]);
    }
  }
}
