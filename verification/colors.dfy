/**
  The colour classifier: a cell's background colour is mapped to the
  availability status whose reference colour is nearest in RGB space.
  Channels are `real`; distances are compared squared, which picks the same
  nearest reference as comparing their square roots.
 */
module Colors {
  import opened Wrappers

  /** The four keys of the reference table, in the table's order. */
  datatype Status = Available | Tentative | Unavailable | Unknown

  datatype Color = Color(red: real, green: real, blue: real)

  /** A `backgroundColor` object as the sheet delivers it: any channel may be absent. */
  datatype Background = Background(red: Option<real>, green: Option<real>, blue: Option<real>)

  /** The reference table, in its iteration order: green, yellow, red, white. */
  const ReferenceColors: seq<(Status, Color)> := [
    (Available, Green),
    (Tentative, Yellow),
    (Unavailable, Red),
    (Unknown, White)
  ]

  const Green := Color(0.0, 1.0, 0.0)
  const Yellow := Color(1.0, 1.0, 0.0)
  const Red := Color(1.0, 0.0, 0.0)
  const White := Color(1.0, 1.0, 1.0)

  /** The position of a status in the reference table. */
  function Rank(s: Status): (k: nat)
    ensures k < |ReferenceColors| && ReferenceColors[k].0 == s
  {
    match s
    case Available => 0
    case Tentative => 1
    case Unavailable => 2
    case Unknown => 3
  }

  /** A missing or `None` background is an empty object, and every missing
      channel reads as 1.0. */
  function Normalize(bg: Option<Background>): Color {
    var b := bg.GetOr(Background(None, None, None));
    Color(b.red.GetOr(1.0), b.green.GetOr(1.0), b.blue.GetOr(1.0))
  }

  /** Squared Euclidean distance in RGB space. */
  function SquaredDistance(a: Color, b: Color): real {
    var dr := a.red - b.red;
    var dg := a.green - b.green;
    var db := a.blue - b.blue;
    dr * dr + dg * dg + db * db
  }

  /** Distance from `c` to the k-th reference colour. */
  function Dist(c: Color, k: nat): real
    requires k < |ReferenceColors|
  {
    SquaredDistance(c, ReferenceColors[k].1)
  }

  /** The k-th reference is nearest to `c`, and every earlier reference is
      strictly farther: the argmin with ties going to the earliest entry. */
  predicate NearestAt(c: Color, k: nat) {
    && k < |ReferenceColors|
    && (forall j :: 0 <= j < |ReferenceColors| ==> Dist(c, k) <= Dist(c, j))
    && (forall j :: 0 <= j < k ==> Dist(c, j) > Dist(c, k))
  }

  /** At most one reference is the nearest in that sense. */
  lemma NearestIsUnique(c: Color, k: nat, k': nat)
    requires NearestAt(c, k) && NearestAt(c, k')
    ensures k == k'
  {
    assert Dist(c, k) == Dist(c, k');
  }

  /** The running minimum of the scan: `Infinity` before the first comparison. */
  datatype Bound = Infinity | Finite(value: real)

  predicate Below(d: real, b: Bound) {
    b.Infinity? || d < b.value
  }

  /** What holds of `best` and `min` after the first `i` table entries. */
  predicate ScanInvariant(c: Color, i: nat, best: Status, min: Bound) {
    && i <= |ReferenceColors|
    && (if i == 0 then best == Unknown && min == Infinity
        else
          && Rank(best) < i
          && min == Finite(Dist(c, Rank(best)))
          && (forall j :: 0 <= j < i ==> Dist(c, Rank(best)) <= Dist(c, j))
          && (forall j :: 0 <= j < Rank(best) ==> Dist(c, j) > Dist(c, Rank(best))))
  }

  /** The loop over the reference table from entry `i` on, replacing the
      best match only on a strictly smaller distance. */
  function Scan(c: Color, i: nat, best: Status, min: Bound): (s: Status)
    requires ScanInvariant(c, i, best, min)
    ensures NearestAt(c, Rank(s))
    decreases |ReferenceColors| - i
  {
    if i == |ReferenceColors| then best
    else
      var d := SquaredDistance(c, ReferenceColors[i].1);
      if Below(d, min) then Scan(c, i + 1, ReferenceColors[i].0, Finite(d))
      else Scan(c, i + 1, best, min)
  }

  /** `color_to_status`: the status of the nearest reference colour, ties
      going to the earliest of available, tentative, unavailable, unknown. */
  function Classify(bg: Option<Background>): (s: Status)
    ensures NearestAt(Normalize(bg), Rank(s))
  {
    Scan(Normalize(bg), 0, Unknown, Infinity)
  }

  /** The nearest-reference property determines the classification completely. */
  lemma ClassifyCharacterized(bg: Option<Background>, s: Status)
    ensures Classify(bg) == s <==> NearestAt(Normalize(bg), Rank(s))
  {
    if NearestAt(Normalize(bg), Rank(s)) {
      NearestIsUnique(Normalize(bg), Rank(s), Rank(Classify(bg)));
    }
  }

  /** On a tie between two nearest references the earlier one wins. */
  lemma TieGoesToEarlier(bg: Option<Background>, j: nat, k: nat)
    requires j < k < |ReferenceColors|
    requires Dist(Normalize(bg), j) == Dist(Normalize(bg), k)
    ensures Classify(bg) != ReferenceColors[k].0
  {
    var c := Normalize(bg);
    assert !NearestAt(c, k) by {
      assert Dist(c, j) == Dist(c, k);
    }
    assert Rank(ReferenceColors[k].0) == k;
  }

  /** `NearestAt` spelled out over the four table entries. */
  lemma NearestAtByCases(c: Color, k: nat)
    requires k < |ReferenceColors|
    requires Dist(c, k) <= Dist(c, 0) && Dist(c, k) <= Dist(c, 1)
    requires Dist(c, k) <= Dist(c, 2) && Dist(c, k) <= Dist(c, 3)
    requires 0 < k ==> Dist(c, 0) > Dist(c, k)
    requires 1 < k ==> Dist(c, 1) > Dist(c, k)
    requires 2 < k ==> Dist(c, 2) > Dist(c, k)
    ensures NearestAt(c, k)
  {
    forall j | 0 <= j < |ReferenceColors|
      ensures Dist(c, k) <= Dist(c, j)
    {
      assert j == 0 || j == 1 || j == 2 || j == 3;
    }
    forall j | 0 <= j < k
      ensures Dist(c, j) > Dist(c, k)
    {
      assert j == 0 || j == 1 || j == 2;
    }
  }

  /** The classification of an exactly given colour. */
  function ClassifyColor(c: Color): Status {
    Classify(Some(Background(Some(c.red), Some(c.green), Some(c.blue))))
  }

  predicate IsUnit(x: real) {
    x == 0.0 || x == 1.0
  }

  /** A colour all of whose channels are 0.0 or 1.0, as the reference colours are. */
  predicate IsCorner(c: Color) {
    IsUnit(c.red) && IsUnit(c.green) && IsUnit(c.blue)
  }

  function Differs(x: real, y: real): real {
    if x == y then 0.0 else 1.0
  }

  lemma UnitChannel(x: real, y: real)
    requires IsUnit(x) && IsUnit(y)
    ensures (x - y) * (x - y) == Differs(x, y)
  {
    if x == y {
      assert x - y == 0.0;
    } else if x == 1.0 {
      assert x - y == 1.0;
    } else {
      assert x - y == -1.0;
    }
  }

  /** Between two corners of the unit cube the squared distance is the
      number of channels in which they differ. */
  lemma CornerDistance(a: Color, b: Color)
    requires IsCorner(a) && IsCorner(b)
    ensures SquaredDistance(a, b) == Differs(a.red, b.red) + Differs(a.green, b.green) + Differs(a.blue, b.blue)
  {
    UnitChannel(a.red, b.red);
    UnitChannel(a.green, b.green);
    UnitChannel(a.blue, b.blue);
  }

  /** The reference colour `c` is nearest to itself at entry `k`. */
  lemma ReferenceIsNearestToItself(c: Color, k: nat)
    requires k < |ReferenceColors| && c == ReferenceColors[k].1
    ensures NearestAt(c, k)
  {
    forall j | 0 <= j < |ReferenceColors|
      ensures Dist(c, j) == 0.0 <==> j == k
      ensures Dist(c, j) >= 0.0
    {
      CornerDistance(c, ReferenceColors[j].1);
    }
  }

  /** Each reference colour classifies as that reference's own status. */
  lemma ReferenceClassifiesAsItself(k: nat)
    requires k < |ReferenceColors|
    ensures ClassifyColor(ReferenceColors[k].1) == ReferenceColors[k].0
  {
    var ref := ReferenceColors[k].1;
    var bg := Some(Background(Some(ref.red), Some(ref.green), Some(ref.blue)));
    assert Normalize(bg) == ref;
    ReferenceIsNearestToItself(ref, k);
    ClassifyCharacterized(bg, ReferenceColors[k].0);
  }

  /** No background at all, an empty background object, or any background
      whose channels are all missing reads as white, hence as `Unknown`. */
  lemma MissingBackgroundIsUnknown(bg: Option<Background>)
    requires bg == None || bg == Some(Background(None, None, None))
    ensures Classify(bg) == Unknown
  {
    ReferenceClassifiesAsItself(3);
    assert Normalize(bg) == Normalize(Some(Background(Some(1.0), Some(1.0), Some(1.0))));
  }

  /** Any colour as far from green as from yellow, and no farther from them
      than from red and white, is `Available`: the tie goes to the entry met
      first. */
  lemma HalfwayGreenYellowIsAvailable(bg: Option<Background>)
    requires var c := Normalize(bg);
      Dist(c, 0) == Dist(c, 1) && Dist(c, 0) <= Dist(c, 2) && Dist(c, 0) <= Dist(c, 3)
    ensures Classify(bg) == Available
  {
    NearestAtByCases(Normalize(bg), 0);
    ClassifyCharacterized(bg, Available);
  }
}
