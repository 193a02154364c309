/** The hue of a bot's generated face: sections are spaced around the wheel, and a
    bot's name turns it a few degrees off its section's hue. */
module Avatar {
  import opened Text
  import opened Int32

  type Byte = b: int | 0 <= b < 256

  // -------------------------------------------------------------------- spin

  /** The bytes as digits in base 31. */
  function Polynomial(bytes: seq<Byte>): nat {
    if bytes == [] then 0 else Polynomial(bytes[..|bytes| - 1]) * 31 + bytes[|bytes| - 1]
  }

  lemma RemainderStep(p: nat, b: nat)
    ensures (p % 360 * 31 + b) % 360 == (p * 31 + b) % 360
  {
    var q, r := p / 360, p % 360;
    assert p * 31 + b == 360 * (31 * q) + (r * 31 + b);
    MultipleVanishes(31 * q, r * 31 + b);
  }

  lemma MultipleVanishes(k: nat, x: nat)
    ensures (360 * k + x) % 360 == x % 360
  {
  }

  /** The angle of a name: the whole polynomial's remainder, though no intermediate
      value ever comes near the limit of a 64-bit integer. */
  method Spin(text: seq<Byte>) returns (h: int)
    ensures h == Polynomial(text) % 360
  {
    h := 0;
    for i := 0 to |text|
      invariant h == Polynomial(text[..i]) % 360
    {
      assert 0 <= h * 31 + text[i] < 0x8000_0000_0000_0000;
      RemainderStep(Polynomial(text[..i]), text[i]);
      assert text[..i + 1][..i] == text[..i];
      h := (h * 31 + text[i]) % 360;
    }
    assert text[..|text|] == text;
  }

  // --------------------------------------------------------------------- hue

  function FirstIndex(ids: seq<string>, id: string): (r: Option<nat>)
    ensures r.Some? ==> r.value < |ids| && ids[r.value] == id
    ensures r.Some? <==> id in ids
  {
    if ids == [] then None
    else if ids[0] == id then Some(0)
    else
      match FirstIndex(ids[1..], id)
      case None => None
      case Some(i) => Some(i + 1)
  }

  function BaseHue(section: Option<string>, sections: seq<string>): int {
    var at := if section.Some? then FirstIndex(sections, section.value) else None;
    match at
    case None => 220
    case Some(i) => TruncDiv(Wrap32(i * 360), |sections|)
  }

  function Turned(base: int, angle: int): int {
    TruncMod(TruncMod(base + TruncMod(angle, 24) - 12, 360) + 360, 360)
  }

  function HueFor(section: Option<string>, sections: seq<string>, name: seq<Byte>): int {
    Turned(BaseHue(section, sections), Polynomial(name) % 360)
  }

  /** Any hue is a point of the wheel, whatever the sections and the name. */
  lemma HueIsOnTheWheel(section: Option<string>, sections: seq<string>, name: seq<Byte>)
    ensures 0 <= HueFor(section, sections, name) < 360
  {
    TurnedIsOnTheWheel(BaseHue(section, sections), Polynomial(name) % 360);
  }

  lemma TurnedIsOnTheWheel(base: int, angle: int)
    ensures 0 <= Turned(base, angle) < 360
  {
    var once := TruncMod(base + TruncMod(angle, 24) - 12, 360);
    assert -360 < once < 360;
  }

  /** Near the wheel, turning is addition that steps once around at most. */
  lemma TurnedNear(base: int, angle: nat)
    requires 0 <= base <= 336
    ensures var x := base + angle % 24 - 12; Turned(base, angle) == if x < 0 then x + 360 else x
  {
  }

  lemma QuotientBounds(x: nat, n: nat)
    requires n > 0
    ensures 0 <= x / n && (x / n) * n <= x < (x / n + 1) * n
  {
  }

  lemma Scale(a: int, b: int, n: nat)
    ensures a >= b ==> a * n >= b * n
  {
    if a >= b {
      assert a * n - b * n == (a - b) * n >= 0;
    }
  }

  lemma Cancel(a: int, b: int, n: nat)
    requires a * n < b * n
    ensures a < b
  {
    Scale(a, b, n);
  }

  lemma SlotIsWide(i: nat, j: nat, n: nat, p: nat)
    requires i < j && n <= 15 && p * n <= i * 360
    ensures (p + 24) * n <= j * 360
  {
    assert (p + 24) * n == p * n + 24 * n;
  }

  lemma LastSlot(j: nat, n: nat)
    requires j < n <= 15
    ensures j * 360 < 337 * n
  {
  }

  /** With at most 15 sections the bases are at least 24 apart around the wheel, while a
      name moves a hue by -12 to 11. */
  lemma BasesAreApart(i: nat, j: nat, n: nat)
    requires i < j < n <= 15
    ensures 0 <= i * 360 / n && i * 360 / n + 24 <= j * 360 / n <= 336
  {
    var p, q := i * 360 / n, j * 360 / n;
    QuotientBounds(i * 360, n);
    QuotientBounds(j * 360, n);
    SlotIsWide(i, j, n, p);
    Cancel(p + 24, q + 1, n);
    LastSlot(j, n);
    Cancel(q, 337, n);
  }

  lemma ListedBase(section: string, sections: seq<string>, i: nat)
    requires FirstIndex(sections, section) == Some(i) && i < 0x1_0000
    ensures BaseHue(Some(section), sections) == i * 360 / |sections|
  {
    WrapSmall(i * 360);
  }

  lemma TurnedExactly(base: int, angle: nat)
    requires 0 <= base < 360
    ensures Turned(base, angle) == (base + angle % 24 - 12) % 360
  {
  }

  lemma BaseIsOnTheWheel(i: nat, n: nat)
    requires i < n
    ensures 0 <= i * 360 / n < 360
  {
    QuotientBounds(i * 360, n);
    Cancel(i * 360 / n, 360, n);
  }

  /** The hue of a bot in a listed section: the section's share of the wheel, turned by the
      name's angle of -12 to 11 degrees, around the wheel. */
  lemma ListedHueExactly(section: string, sections: seq<string>, i: nat, name: seq<Byte>)
    requires FirstIndex(sections, section) == Some(i) && i * 360 < TWO_31
    ensures HueFor(Some(section), sections, name) ==
            (i * 360 / |sections| + Polynomial(name) % 360 % 24 - 12) % 360
  {
    WrapSmall(i * 360);
    BaseIsOnTheWheel(i, |sections|);
    TurnedExactly(i * 360 / |sections|, Polynomial(name) % 360);
  }

  /** A bot of no section, or of one that is not listed, turns around 220. */
  lemma UnlistedHueExactly(section: Option<string>, sections: seq<string>, name: seq<Byte>)
    requires section.Some? ==> section.value !in sections
    ensures HueFor(section, sections, name) == 208 + Polynomial(name) % 360 % 24
  {
    TurnedExactly(220, Polynomial(name) % 360);
  }

  /** With at most 15 sections, two bots of different listed sections never get the
      same hue, whatever their names. */
  lemma SectionsNeverShare(a: string, b: string, sections: seq<string>, name: seq<Byte>, name': seq<Byte>)
    requires a in sections && b in sections && a != b && |sections| <= 15
    ensures HueFor(Some(a), sections, name) != HueFor(Some(b), sections, name')
  {
    var i, j := FirstIndex(sections, a).value, FirstIndex(sections, b).value;
    ListedBase(a, sections, i);
    ListedBase(b, sections, j);
    if i < j {
      BasesAreApart(i, j, |sections|);
      ApartHues(BaseHue(Some(a), sections), BaseHue(Some(b), sections),
                Polynomial(name) % 360, Polynomial(name') % 360);
    } else {
      BasesAreApart(j, i, |sections|);
      ApartHues(BaseHue(Some(b), sections), BaseHue(Some(a), sections),
                Polynomial(name') % 360, Polynomial(name) % 360);
    }
  }

  lemma ApartHues(p: int, q: int, s: nat, t: nat)
    requires 0 <= p && p + 24 <= q <= 336
    ensures Turned(p, s) != Turned(q, t)
  {
    TurnedNear(p, s);
    TurnedNear(q, t);
  }

  /** Any two names and any two different sections are told apart. */
  ghost predicate AlwaysApart(sections: seq<string>) {
    forall a, b, name: seq<Byte>, name': seq<Byte> :: a in sections && b in sections && a != b ==>
      HueFor(Some(a), sections, name) != HueFor(Some(b), sections, name')
  }

  /** Fifteen is exactly the limit: with more sections, two one-letter names in the
      first two of them collide. */
  lemma FifteenIsTheLimit(sections: seq<string>)
    requires |sections| >= 2 && sections[0] != sections[1]
    ensures AlwaysApart(sections) <==> |sections| <= 15
  {
    if |sections| <= 15 {
      forall a, b, name: seq<Byte>, name': seq<Byte> | a in sections && b in sections && a != b
        ensures HueFor(Some(a), sections, name) != HueFor(Some(b), sections, name')
      {
        SectionsNeverShare(a, b, sections, name, name');
      }
    } else {
      var name, name' := Colliding(sections);
      assert sections[0] in sections && sections[1] in sections;
    }
  }

  lemma Colliding(sections: seq<string>) returns (name: seq<Byte>, name': seq<Byte>)
    requires |sections| >= 16 && sections[0] != sections[1]
    ensures HueFor(Some(sections[0]), sections, name) == HueFor(Some(sections[1]), sections, name')
  {
    var gap := 360 / |sections|;
    SmallGap(|sections|);
    name, name' := [96 + gap], [96];
    OneLetter(96 + gap);
    OneLetter(96);
    FirstTwo(sections);
    ListedBase(sections[0], sections, 0);
    ListedBase(sections[1], sections, 1);
    SameHue(gap);
  }

  lemma SmallGap(n: nat)
    requires n >= 16
    ensures 0 <= 360 / n <= 22 && 0 * 360 / n == 0
  {
    QuotientBounds(360, n);
    Scale(360 / n, 23, n);
  }

  lemma SameHue(gap: nat)
    requires gap <= 22
    ensures Turned(0, (96 + gap) % 360) == Turned(gap, 96 % 360)
  {
    Remainders(gap);
    TurnedNear(0, 96 + gap);
    TurnedNear(gap, 96);
  }

  lemma Remainders(gap: nat)
    requires gap <= 22
    ensures (96 + gap) % 360 == 96 + gap && (96 + gap) % 24 == gap
  {
    assert 96 + gap == 24 * 4 + gap;
  }

  lemma FirstTwo(sections: seq<string>)
    requires |sections| >= 2 && sections[0] != sections[1]
    ensures FirstIndex(sections, sections[0]) == Some(0) && FirstIndex(sections, sections[1]) == Some(1)
  {
    assert sections[1..][0] == sections[1];
  }

  lemma OneLetter(b: Byte)
    ensures Polynomial([b]) == b
  {
    assert [b][..0] == [];
  }

  function Power(n: nat): nat {
    if n == 0 then 1 else 31 * Power(n - 1)
  }

  lemma Distribute(a: nat, b: nat, p: nat, c: nat)
    ensures (a * p + b) * 31 + c == a * (31 * p) + (b * 31 + c)
  {
  }

  /** The bytes behind count as they are, those in front by 31 to the number of bytes behind. */
  lemma {:induction false} PolynomialAppend(a: seq<Byte>, b: seq<Byte>)
    ensures Polynomial(a + b) == Polynomial(a) * Power(|b|) + Polynomial(b)
    decreases |b|
  {
    if b == [] {
      assert a + b == a;
    } else {
      var front := b[..|b| - 1];
      assert (a + b)[..|a + b| - 1] == a + front;
      PolynomialAppend(a, front);
      Distribute(Polynomial(a), Polynomial(front), Power(|front|), b[|b| - 1]);
    }
  }

  // ------------------------------------------------------- how far apart hues are

  /** The distance around the wheel. */
  function Distance(a: int, b: int): (d: int)
    ensures 0 <= a < 360 && 0 <= b < 360 ==> 0 <= d <= 180
  {
    var gap := if a <= b then b - a else a - b;
    if gap <= 180 then gap else 360 - gap
  }

  lemma SumFits(p: int, q: int, r: int, x: int, y: int, n: nat)
    requires p * n <= x && q * n <= y && x + y < (r + 1) * n
    ensures p + q <= r
  {
    assert (p + q) * n == p * n + q * n;
    Cancel(p + q, r + 1, n);
  }

  lemma SlotsApart(x: nat, y: nat, n: nat)
    requires n > 0
    ensures x / n + y / n <= (x + y) / n
  {
    QuotientBounds(x, n);
    QuotientBounds(y, n);
    QuotientBounds(x + y, n);
    SumFits(x / n, y / n, (x + y) / n, x, y, n);
  }

  lemma QuotientGrows(x: nat, y: nat, n: nat)
    requires n > 0 && x <= y
    ensures x / n <= y / n
  {
    QuotientBounds(x, n);
    QuotientBounds(y, n);
    Cancel(x / n, y / n + 1, n);
  }

  lemma WholeWheel(n: nat)
    requires n > 0
    ensures n * 360 / n == 360
  {
    QuotientBounds(n * 360, n);
    Cancel(n * 360 / n, 361, n);
    Cancel(360, n * 360 / n + 1, n);
  }

  /** Different bases are a whole slot apart, both ways around the wheel. */
  lemma BasesAreASlotApart(i: nat, j: nat, n: nat)
    requires i < j < n
    ensures 0 <= i * 360 / n && i * 360 / n + 360 / n <= j * 360 / n
    ensures j * 360 / n + 360 / n <= 360 + i * 360 / n
  {
    QuotientBounds(i * 360, n);
    SlotsApart(i * 360, 360, n);
    QuotientGrows(i * 360 + 360, j * 360, n);
    SlotsApart(j * 360, 360, n);
    QuotientGrows(j * 360 + 360, n * 360, n);
    WholeWheel(n);
  }

  lemma TurnedDistance(p: int, q: int, s: nat, t: nat, slot: nat)
    requires 0 <= p && p + slot <= q <= 336 && q + slot <= 360 + p && slot >= 24
    ensures Distance(Turned(p, s), Turned(q, t)) >= slot - 23
    ensures Distance(Turned(q, t), Turned(p, s)) >= slot - 23
  {
    TurnedNear(p, s);
    TurnedNear(q, t);
  }

  /** However many sections there are, two bots of different listed sections are at least a
      slot of the wheel less 23 degrees apart, whatever their names. */
  lemma SectionsStayApart(a: string, b: string, sections: seq<string>, name: seq<Byte>, name': seq<Byte>)
    requires a in sections && b in sections && a != b
    ensures Distance(HueFor(Some(a), sections, name), HueFor(Some(b), sections, name')) >= 360 / |sections| - 23
  {
    HueIsOnTheWheel(Some(a), sections, name);
    HueIsOnTheWheel(Some(b), sections, name');
    if |sections| <= 15 {
      var i, j := FirstIndex(sections, a).value, FirstIndex(sections, b).value;
      ListedBase(a, sections, i);
      ListedBase(b, sections, j);
      SlotIsLarge(|sections|);
      if i < j {
        BasesAreApart(i, j, |sections|);
        BasesAreASlotApart(i, j, |sections|);
        TurnedDistance(i * 360 / |sections|, j * 360 / |sections|, Polynomial(name) % 360,
                       Polynomial(name') % 360, 360 / |sections|);
      } else {
        BasesAreApart(j, i, |sections|);
        BasesAreASlotApart(j, i, |sections|);
        TurnedDistance(j * 360 / |sections|, i * 360 / |sections|, Polynomial(name') % 360,
                       Polynomial(name) % 360, 360 / |sections|);
      }
    } else {
      SmallGap(|sections|);
    }
  }

  lemma SlotIsLarge(n: nat)
    requires 0 < n <= 15
    ensures 360 / n >= 24 && (n >= 2 ==> 360 / n <= 180)
  {
    QuotientBounds(360, n);
    Cancel(23, 360 / n, n);
    if n >= 2 {
      Cancel(360 / n, 181, n);
    }
  }

  lemma NearestHues(gap: nat)
    requires 24 <= gap <= 180
    ensures Distance(Turned(0, 119), Turned(gap, 96)) == gap - 23
  {
    assert 119 == 24 * 4 + 23 && 96 == 24 * 4;
    TurnedNear(0, 119);
    TurnedNear(gap, 96);
  }

  /** And some two names in the first two sections come that near, or share a hue when the
      slot is no wider than 23 degrees. */
  lemma SectionsComeThatNear(sections: seq<string>) returns (name: seq<Byte>, name': seq<Byte>)
    requires |sections| >= 2 && sections[0] != sections[1]
    ensures var near := 360 / |sections| - 23;
            Distance(HueFor(Some(sections[0]), sections, name), HueFor(Some(sections[1]), sections, name')) ==
            if near >= 0 then near else 0
  {
    if |sections| >= 16 {
      name, name' := Colliding(sections);
      SmallGap(|sections|);
    } else {
      name, name' := [119], [96];
      OneLetter(119);
      OneLetter(96);
      FirstTwo(sections);
      FirstBases(sections);
      SlotIsLarge(|sections|);
      NearestHues(360 / |sections|);
    }
  }

  lemma FirstBases(sections: seq<string>)
    requires |sections| >= 2 && sections[0] != sections[1]
    ensures BaseHue(Some(sections[0]), sections) == 0 && BaseHue(Some(sections[1]), sections) == 360 / |sections|
  {
    FirstTwo(sections);
    ListedBase(sections[0], sections, 0);
    ListedBase(sections[1], sections, 1);
    QuotientBounds(0, |sections|);
  }
}
