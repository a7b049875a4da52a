/** The card-draw simulator: for a selection of crypt or library cards, a
    table of the chances of seeing some of them after a number of draws,
    using the hypergeometric distribution on whole numbers. */
module CardDrawSimulator {
  import opened Wrappers
  import opened Cards

  // ---------------------------------------------------------------------
  // Binomial coefficients
  // ---------------------------------------------------------------------

  function Fact(n: nat): (r: nat)
    ensures r >= 1
  {
    if n == 0 then 1 else n * Fact(n - 1)
  }

  /** n (n - 1) ... (n - k + 1): k factors counting down from n. */
  function Falling(n: int, k: nat): int {
    if k == 0 then 1 else Falling(n, k - 1) * (n - (k - 1))
  }

  /** The binomial coefficient by Pascal's rule: the number of ways to
      pick k things out of n. */
  function Binom(n: nat, k: nat): nat {
    if k == 0 then 1 else if n == 0 then 0 else Binom(n - 1, k - 1) + Binom(n - 1, k)
  }

  /** What `choose(k, n)` returns: 1 for no choices, and otherwise the
      falling factorial over k!, with the floor division of Python 2
      integers (the divisor is positive, so Dafny's division agrees). */
  function ChooseValue(k: int, n: int): int {
    if k <= 0 then 1 else Falling(n, k) / Fact(k)
  }

  /** `choose`: the numerator and the denominator are multiplied up factor
      by factor, then divided. */
  method Choose(k: int, n: int) returns (r: int)
    ensures k <= 0 ==> r == 1
    ensures k > 0 ==> r == Falling(n, k) / Fact(k)
  {
    if k <= 0 {
      return 1;
    }
    var denom := k;
    var num := n;
    for i := 1 to k
      invariant num == Falling(n, i)
      invariant denom == k * Fact(i - 1)
    {
      num := num * (n - i);
      FactStep(k, i);
      denom := denom * i;
    }
    return num / denom;
  }

  lemma FactStep(k: int, i: nat)
    requires i >= 1
    ensures k * Fact(i - 1) * i == k * Fact(i)
  {
    assert Fact(i) == i * Fact(i - 1);
  }

  /** The falling factorial also splits off its first factor. */
  lemma {:induction false} FallingTop(n: int, k: nat)
    requires k > 0
    ensures Falling(n, k) == n * Falling(n - 1, k - 1)
  {
    if k > 1 {
      FallingTop(n, k - 1);
      var f := Falling(n - 1, k - 2);
      assert Falling(n, k) == (n * f) * (n - (k - 1));
      assert Falling(n - 1, k - 1) == f * (n - (k - 1));
      assert (n * f) * (n - (k - 1)) == n * (f * (n - (k - 1)));
    }
  }

  /** The falling factorial of a natural number is the binomial coefficient
      times k!. */
  lemma {:induction false} FallingBinom(n: nat, k: nat)
    ensures Falling(n, k) == Binom(n, k) * Fact(k)
    decreases n, k
  {
    if k == 0 {
    } else if n == 0 {
      FallingBinom(0, k - 1);
      assert Falling(0, k) == Falling(0, k - 1) * (0 - (k - 1));
      if k > 1 {
        assert Binom(0, k - 1) == 0;
      }
    } else {
      FallingBinom(n - 1, k - 1);
      FallingBinom(n - 1, k);
      FallingTop(n, k);
      var f := Falling(n - 1, k - 1);
      assert Falling(n - 1, k) == f * (n - k);
      PascalArith(Binom(n - 1, k - 1), Binom(n - 1, k), f, Fact(k - 1), Fact(k), n, k);
    }
  }

  /** The arithmetic of one step of Pascal's rule: with f = a (k-1)! and
      b k! = f (n - k), (a + b) k! = n f. */
  lemma PascalArith(a: int, b: int, f: int, g: int, fk: int, n: int, k: int)
    requires f == a * g && fk == k * g && b * fk == f * (n - k)
    ensures (a + b) * fk == n * f
  {
    assert a * fk == k * f by {
      assert a * (k * g) == k * (a * g);
    }
    assert (a + b) * fk == a * fk + b * fk;
    assert k * f + f * (n - k) == n * f;
  }

  lemma DivExact(b: int, f: int)
    requires f > 0
    ensures (b * f) / f == b
  {
    var q, r := (b * f) / f, (b * f) % f;
    assert f * q + r == b * f;
    assert f * (b - q) == r by {
      assert f * (b - q) == f * b - f * q;
    }
    if q < b {
      MulAtLeast(f, b - q);
    } else if q > b {
      MulAtLeast(f, q - b);
    }
  }

  lemma MulAtLeast(f: int, d: int)
    requires f > 0 && d >= 1
    ensures f * d >= f
  {
    assert f * d == f * (d - 1) + f;
    assert f * (d - 1) >= 0;
  }

  /** `choose(k, n)` of natural numbers is the binomial coefficient of
      Pascal's rule: it counts the ways to pick k out of n. */
  lemma ChooseIsBinom(k: nat, n: nat)
    ensures ChooseValue(k, n) == Binom(n, k)
  {
    if k > 0 {
      FallingBinom(n, k);
      DivExact(Binom(n, k), Fact(k));
    }
  }

  /** There is a way to pick k out of n exactly when k is at most n. */
  lemma {:induction false} BinomPositive(n: nat, k: nat)
    ensures Binom(n, k) > 0 <==> k <= n
  {
    if k > 0 && n > 0 {
      BinomPositive(n - 1, k - 1);
      BinomPositive(n - 1, k);
    }
  }

  // ---------------------------------------------------------------------
  // The hypergeometric probability
  // ---------------------------------------------------------------------

  /** The RuntimeError of `hyper_prob`, with the values it was given. */
  datatype HyperError = InvalidValues(found: int, draws: int, objects: int, total: int)

  /** A probability on whole numbers: zero from the trivial cases, or the
      ratio of two counts. */
  datatype Chance = Impossible | Ratio(num: int, den: int)

  /** The values `hyper_prob` refuses. */
  predicate Invalid(found: int, draws: int, objects: int, total: int) {
    objects <= 0 || found < 0 || total <= 0 || draws <= 0 || objects > total || draws > total
  }

  /** `hyper_prob(found, draws, objects, total)`: the chance of drawing
      exactly `found` of `objects` cards of interest among `total` cards in
      `draws` draws. The ratio is the number of hands holding exactly
      `found` of them over the number of hands. */
  function HyperProb(found: int, draws: int, objects: int, total: int): (r: Result<Chance, HyperError>)
    ensures r.Err? <==> Invalid(found, draws, objects, total)
    ensures r.Err? ==> r.error == InvalidValues(found, draws, objects, total)
    ensures r.Ok? ==> (r.value == Impossible <==> found > draws || found > objects)
    ensures r.Ok? && r.value.Ratio? ==>
      && r.value.den == Binom(total, draws) > 0
      && r.value.num == Binom(objects, found) * Binom(total - objects, draws - found)
      && (r.value.num > 0 <==> draws - found <= total - objects)
  {
    if Invalid(found, draws, objects, total) then Err(InvalidValues(found, draws, objects, total))
    else if found > draws then Ok(Impossible)
    else if found > objects then Ok(Impossible)
    else
      ChooseIsBinom(found, objects);
      ChooseIsBinom(draws - found, total - objects);
      ChooseIsBinom(draws, total);
      BinomPositive(total, draws);
      BinomPositive(objects, found);
      BinomPositive(total - objects, draws - found);
      Ok(Ratio(ChooseValue(found, objects) * ChooseValue(draws - found, total - objects),
               ChooseValue(draws, total)))
  }

  /** Whether `hyper_prob` fails does not depend on how many cards are to
      be found, once that is not negative. */
  lemma InvalidAnyFound(found: int, draws: int, objects: int, total: int)
    requires found >= 0
    ensures HyperProb(found, draws, objects, total).Err? <==> HyperProb(0, draws, objects, total).Err?
  {
  }

  // ---------------------------------------------------------------------
  // The selection
  // ---------------------------------------------------------------------

  /** Every card has a type. */
  predicate Typed(cards: seq<AbstractCard>) {
    forall i :: 0 <= i < |cards| ==> |cards[i].cardTypes| > 0
  }

  function Min(a: int, b: int): int {
    if a <= b then a else b
  }

  /** The number of crypt cards among `cards`. */
  function CryptCards(cards: seq<AbstractCard>): (n: nat)
    requires Typed(cards)
    ensures n <= |cards|
  {
    if |cards| == 0 then 0
    else
      var init := cards[..|cards| - 1];
      assert forall i :: 0 <= i < |init| ==> init[i] == cards[i];
      CryptCards(init) + (if IsCryptCard(cards[|cards| - 1]) then 1 else 0)
  }

  /** The cards of `all` that are among `selected`, in order. */
  function Picked(all: seq<AbstractCard>, selected: seq<AbstractCard>): seq<AbstractCard> {
    if |all| == 0 then []
    else
      var last := all[|all| - 1];
      Picked(all[..|all| - 1], selected) + (if last in selected then [last] else [])
  }

  /** `_get_selected_cards`: the cards of the selected rows, and whether
      any of them is a crypt card and whether any is a library card. */
  method GetSelectedCards(rows: seq<AbstractCard>) returns (cards: seq<AbstractCard>, crypt: bool, library: bool)
    requires Typed(rows)
    ensures cards == rows
    ensures crypt <==> exists i :: 0 <= i < |rows| && IsCryptCard(rows[i])
    ensures library <==> exists i :: 0 <= i < |rows| && !IsCryptCard(rows[i])
  {
    cards, crypt, library := [], false, false;
    for i := 0 to |rows|
      invariant cards == rows[..i]
      invariant crypt <==> exists j :: 0 <= j < i && IsCryptCard(rows[j])
      invariant library <==> exists j :: 0 <= j < i && !IsCryptCard(rows[j])
    {
      if IsCryptCard(rows[i]) {
        crypt := true;
      } else {
        library := true;
      }
      cards := cards + [rows[i]];
    }
  }

  /** The copies of each selected card among `cards`, keyed by the cards
      of the list that are selected. */
  ghost predicate Tallied(cards: seq<AbstractCard>, selected: seq<AbstractCard>, counts: map<AbstractCard, int>) {
    && (forall c :: c in counts <==> c in cards && c in selected)
    && (forall c :: c in counts ==> counts[c] == multiset(Picked(cards, selected))[c])
  }

  /** The counts after one more card. */
  function Bump(counts: map<AbstractCard, int>, c: AbstractCard, selected: seq<AbstractCard>): map<AbstractCard, int> {
    if c in selected then counts[c := (if c in counts then counts[c] else 0) + 1] else counts
  }

  lemma BumpStep(cards: seq<AbstractCard>, c: AbstractCard, selected: seq<AbstractCard>, counts: map<AbstractCard, int>)
    requires Tallied(cards, selected, counts)
    ensures Tallied(cards + [c], selected, Bump(counts, c, selected))
  {
    assert (cards + [c])[..|cards|] == cards;
    PickedIn(cards, selected);
  }

  /** The counts of `activate` over the first i cards of the list. */
  ghost predicate Counted(all: seq<AbstractCard>, selected: seq<AbstractCard>, i: nat,
                          cryptSize: nat, librarySize: nat, counts: map<AbstractCard, int>, count: nat)
    requires i <= |all| && Typed(all)
  {
    && Typed(all[..i])
    && cryptSize == CryptCards(all[..i]) && cryptSize + librarySize == i
    && Tallied(all[..i], selected, counts)
    && count == |Picked(all[..i], selected)|
  }

  /** The loop of `activate` over all the cards of the list: the crypt and
      library sizes, the copies of each selected card, and the number of
      selected copies. */
  method CountSelection(all: seq<AbstractCard>, selected: seq<AbstractCard>)
    returns (cryptSize: nat, librarySize: nat, counts: map<AbstractCard, int>, count: nat)
    requires Typed(all)
    ensures cryptSize == CryptCards(all) && cryptSize + librarySize == |all|
    ensures Tallied(all, selected, counts)
    ensures forall c :: c in counts ==> counts[c] == multiset(all)[c]
    ensures count == |Picked(all, selected)|
  {
    cryptSize, librarySize, counts, count := 0, 0, map[], 0;
    for i := 0 to |all|
      invariant Counted(all, selected, i, cryptSize, librarySize, counts, count)
    {
      cryptSize, librarySize, counts, count := CountOne(all, selected, i, cryptSize, librarySize, counts, count);
    }
    assert all[..|all|] == all;
    PickedCopies(all, selected);
  }

  /** One card of the loop. */
  method CountOne(all: seq<AbstractCard>, selected: seq<AbstractCard>, i: nat,
                  cryptSize: nat, librarySize: nat, counts: map<AbstractCard, int>, count: nat)
    returns (cryptSize': nat, librarySize': nat, counts': map<AbstractCard, int>, count': nat)
    requires i < |all| && Typed(all)
    requires Counted(all, selected, i, cryptSize, librarySize, counts, count)
    ensures Counted(all, selected, i + 1, cryptSize', librarySize', counts', count')
  {
    CountStep(all, selected, i);
    BumpStep(all[..i], all[i], selected, counts);
    var c := all[i];
    cryptSize', librarySize', count' := cryptSize, librarySize, count;
    if IsCryptCard(c) {
      cryptSize' := cryptSize + 1;
    } else {
      librarySize' := librarySize + 1;
    }
    counts' := Bump(counts, c, selected);
    if c in selected {
      count' := count + 1;
    }
  }

  /** One more card of the list. */
  lemma CountStep(all: seq<AbstractCard>, selected: seq<AbstractCard>, i: nat)
    requires i < |all| && Typed(all)
    ensures all[..i + 1] == all[..i] + [all[i]]
    ensures Typed(all[..i + 1])
    ensures CryptCards(all[..i + 1]) == CryptCards(all[..i]) + (if IsCryptCard(all[i]) then 1 else 0)
    ensures Picked(all[..i + 1], selected) == Picked(all[..i], selected) + (if all[i] in selected then [all[i]] else [])
  {
    assert all[..i + 1] == all[..i] + [all[i]];
    assert all[..i + 1][..i] == all[..i];
  }

  /** A selected card has as many picked copies as listed ones. */
  lemma {:induction false} PickedCopies(all: seq<AbstractCard>, selected: seq<AbstractCard>)
    ensures forall c :: c in selected ==> multiset(Picked(all, selected))[c] == multiset(all)[c]
  {
    if |all| > 0 {
      var init := all[..|all| - 1];
      PickedCopies(init, selected);
      assert all == init + [all[|all| - 1]];
    }
  }

  /** The picked cards are exactly the listed cards that are selected. */
  lemma {:induction false} PickedIn(all: seq<AbstractCard>, selected: seq<AbstractCard>)
    ensures forall c :: c in Picked(all, selected) <==> c in all && c in selected
  {
    if |all| > 0 {
      var init := all[..|all| - 1];
      PickedIn(init, selected);
      assert all == init + [all[|all| - 1]];
    }
  }

  /** When every selected card is a crypt card, the selected copies are at
      most the crypt; when every one is a library card, at most the
      library. */
  lemma {:induction false} PickedBound(all: seq<AbstractCard>, selected: seq<AbstractCard>)
    requires Typed(all) && Typed(selected)
    ensures (forall i :: 0 <= i < |selected| ==> IsCryptCard(selected[i])) ==>
      |Picked(all, selected)| <= CryptCards(all)
    ensures (forall i :: 0 <= i < |selected| ==> !IsCryptCard(selected[i])) ==>
      |Picked(all, selected)| <= |all| - CryptCards(all)
  {
    if |all| > 0 {
      var init := all[..|all| - 1];
      assert Typed(init) by {
        assert forall i :: 0 <= i < |init| ==> init[i] == all[i];
      }
      PickedBound(init, selected);
      var last := all[|all| - 1];
      if last in selected {
        var j :| 0 <= j < |selected| && selected[j] == last;
        assert IsCryptCard(selected[j]) == IsCryptCard(last);
      }
    }
  }

  // ---------------------------------------------------------------------
  // The dialog
  // ---------------------------------------------------------------------

  /** The complaints `activate` shows instead of the dialog. */
  datatype Complaint = NoSelection | MixedSelection | LibraryTooSmall | CryptTooSmall

  /** What `activate` ends with: a complaint, the filled table, or the
      IndexError of naming the first listed selected card when none of the
      selected cards is in the list. */
  datatype Outcome = Complained(complaint: Complaint) | Shown(table: seq<seq<Chance>>) | NamesIndexError

  /** The plugin's settings, kept in fields as the source does. */
  class CardDrawSimPlugin {
    var selectedCounts: map<AbstractCard, int>
    var selectedCount: int
    var openingDraw: int
    var total: int
    var numSteps: int
    var maxSteps: int
    var drawStep: int
    var cardsToDraw: int

    constructor()
      ensures selectedCounts == map[] && selectedCount == 0 && openingDraw == 0 && total == 0
      ensures numSteps == 0 && maxSteps == 0 && drawStep == 0 && cardsToDraw == 0
    {
      selectedCounts, selectedCount, openingDraw, total := map[], 0, 0, 0;
      numSteps, maxSteps, drawStep, cardsToDraw := 0, 0, 0, 0;
    }

    /** The settings of a shown dialog: the deck is larger than the opening
        draw, the columns run from 1 to the maximum, the step is one of
        1 to 10, and the rows one of 1 to the selected copies. */
    ghost predicate Settled()
      reads this
    {
      && 0 < openingDraw < total
      && maxSteps == Min(15, total - openingDraw)
      && 1 <= numSteps <= maxSteps
      && 1 <= drawStep <= 10
      && 0 <= cardsToDraw <= selectedCount
    }

    /** The number of draws of column `col`: the opening draw, then
        `col` steps. */
    function Draws(col: int): int
      reads this
    {
      col * drawStep + openingDraw
    }

    /** `_steps_changed`, with the step the combo box offers. */
    method StepsChanged(v: int)
      requires 1 <= v <= 10
      modifies this
      ensures drawStep == v
      ensures selectedCounts == old(selectedCounts) && selectedCount == old(selectedCount)
      ensures openingDraw == old(openingDraw) && total == old(total) && numSteps == old(numSteps)
      ensures maxSteps == old(maxSteps) && cardsToDraw == old(cardsToDraw)
      ensures old(Settled()) ==> Settled()
    {
      drawStep := v;
    }

    /** `_rows_changed`, with a row count the combo box offers. */
    method RowsChanged(v: int)
      requires 1 <= v <= selectedCount
      modifies this
      ensures cardsToDraw == v
      ensures selectedCounts == old(selectedCounts) && selectedCount == old(selectedCount)
      ensures openingDraw == old(openingDraw) && total == old(total) && numSteps == old(numSteps)
      ensures maxSteps == old(maxSteps) && drawStep == old(drawStep)
      ensures old(Settled()) ==> Settled()
    {
      cardsToDraw := v;
    }

    /** `_cols_changed`, with a column count the combo box offers. */
    method ColsChanged(v: int)
      requires 1 <= v <= maxSteps
      modifies this
      ensures numSteps == v
      ensures selectedCounts == old(selectedCounts) && selectedCount == old(selectedCount)
      ensures openingDraw == old(openingDraw) && total == old(total) && cardsToDraw == old(cardsToDraw)
      ensures maxSteps == old(maxSteps) && drawStep == old(drawStep)
      ensures old(Settled()) ==> Settled()
    {
      numSteps := v;
    }

    /** `_fill_table`: the zero row for every column first, then each
        other row; a column whose values `hyper_prob` refuses raises at the
        first such column of the zero row. Row `row`, column `col` holds
        the chance of exactly `row` selected cards in the column's draws. */
    method FillTable() returns (r: Result<seq<seq<Chance>>, HyperError>)
      ensures r.Err? <==> exists col :: 0 <= col < numSteps && Invalid(0, Draws(col), selectedCount, total)
      ensures r.Ok? ==> |r.value| == (if cardsToDraw > 0 then cardsToDraw else 0) + 1
      ensures r.Ok? ==> forall row :: 0 <= row < |r.value| ==>
        |r.value[row]| == (if numSteps > 0 then numSteps else 0)
        && forall col :: 0 <= col < |r.value[row]| ==>
             HyperProb(row, Draws(col), selectedCount, total) == Ok(r.value[row][col])
    {
      var width := if numSteps > 0 then numSteps else 0;
      var zero := [];
      for col := 0 to width
        invariant |zero| == col
        invariant forall c :: 0 <= c < col ==> HyperProb(0, Draws(c), selectedCount, total) == Ok(zero[c])
      {
        var p := HyperProb(0, Draws(col), selectedCount, total);
        if p.Err? {
          return Err(p.error);
        }
        zero := zero + [p.value];
      }
      var table := [zero];
      var height := if cardsToDraw > 0 then cardsToDraw else 0;
      for row := 0 to height
        invariant |table| == row + 1
        invariant forall m :: 0 <= m <= row ==> (|table[m]| == width
          && forall c :: 0 <= c < width ==> HyperProb(m, Draws(c), selectedCount, total) == Ok(table[m][c]))
      {
        var cells := FillRow(row + 1, width);
        table := table + [cells];
      }
      return Ok(table);
    }

    /** One row after the zero row, once the zero row went through. */
    method FillRow(found: int, width: int) returns (cells: seq<Chance>)
      requires found >= 1 && width >= 0
      requires forall c :: 0 <= c < width ==> !Invalid(0, Draws(c), selectedCount, total)
      ensures |cells| == width
      ensures forall c :: 0 <= c < |cells| ==> HyperProb(found, Draws(c), selectedCount, total) == Ok(cells[c])
    {
      cells := [];
      var col := 0;
      while col < width
        invariant 0 <= col <= width
        invariant |cells| == col
        invariant forall c :: 0 <= c < col ==> HyperProb(found, Draws(c), selectedCount, total) == Ok(cells[c])
      {
        var p := HyperProb(found, Draws(col), selectedCount, total);
        cells := cells + [p.value];
        col := col + 1;
      }
    }

    /** The settings `activate` derives from the list and the selection,
        for a crypt or a library selection. */
    ghost predicate SizedFor(all: seq<AbstractCard>, rows: seq<AbstractCard>, crypt: bool)
      reads this
      requires Typed(all)
    {
      && openingDraw == (if crypt then 4 else 7)
      && total == (if crypt then CryptCards(all) else |all| - CryptCards(all))
      && numSteps == Min(if crypt then 2 else 8, total - openingDraw)
      && maxSteps == Min(15, total - openingDraw)
      && drawStep == 1
      && selectedCount == |Picked(all, rows)|
      && cardsToDraw == Min(10, selectedCount)
      && Tallied(all, rows, selectedCounts)
    }

    /** The settings unchanged. */
    twostate predicate Kept()
      reads this
    {
      && selectedCounts == old(selectedCounts) && selectedCount == old(selectedCount)
      && openingDraw == old(openingDraw) && total == old(total) && numSteps == old(numSteps)
      && maxSteps == old(maxSteps) && drawStep == old(drawStep) && cardsToDraw == old(cardsToDraw)
    }

    /** The setup part of `activate`: the counts first, then the sizes. */
    method SizeTable(all: seq<AbstractCard>, rows: seq<AbstractCard>, crypt: bool)
      requires Typed(all)
      modifies this
      ensures SizedFor(all, rows, crypt)
    {
      var cryptSize, librarySize, counts, count := CountSelection(all, rows);
      selectedCounts, selectedCount := counts, count;
      if crypt {
        openingDraw := 4;
        total := cryptSize;
        numSteps := Min(2, cryptSize - openingDraw);
      } else {
        openingDraw := 7;
        numSteps := Min(8, librarySize - openingDraw);
        total := librarySize;
      }
      maxSteps := Min(15, total - openingDraw);
      drawStep := 1;
      cardsToDraw := Min(10, selectedCount);
    }

    /** The table as `activate` fills it. */
    ghost predicate FilledAs(o: Outcome)
      reads this
    {
      o.Shown? ==> (|o.table| == cardsToDraw + 1
        && forall row, col :: 0 <= row < |o.table| && 0 <= col < |o.table[row]| ==>
             HyperProb(row, col + openingDraw, selectedCount, total) == Ok(o.table[row][col]))
    }

    /** `activate`: complain about an empty or mixed selection; otherwise
        count the list, size the table from the crypt (opening draw 4, up
        to 2 columns) or the library (opening hand 7, up to 8 columns),
        complain when the deck is not larger than the opening draw, raise
        IndexError at the label when no selected card is listed, and
        fill the table, which with the opening step of one never raises. */
    method Activate(all: seq<AbstractCard>, rows: seq<AbstractCard>) returns (o: Outcome)
      requires Typed(all) && Typed(rows)
      modifies this
      ensures |rows| == 0 ==> o == Complained(NoSelection)
      ensures o == Complained(MixedSelection) <==>
        |rows| > 0 && (exists i :: 0 <= i < |rows| && IsCryptCard(rows[i]))
                   && (exists i :: 0 <= i < |rows| && !IsCryptCard(rows[i]))
      ensures o in {Complained(NoSelection), Complained(MixedSelection)} ==> Kept()
      ensures o !in {Complained(NoSelection), Complained(MixedSelection)} ==>
        && |rows| > 0
        && (forall i :: 0 <= i < |rows| ==> IsCryptCard(rows[i]) == IsCryptCard(rows[0]))
        && SizedFor(all, rows, IsCryptCard(rows[0]))
        && (o == Complained(if IsCryptCard(rows[0]) then CryptTooSmall else LibraryTooSmall) <==> total <= openingDraw)
        && (total > openingDraw ==> Settled())
        && (total > openingDraw ==> (o == NamesIndexError <==> forall c :: c in rows ==> c !in all))
        && (total > openingDraw && o != NamesIndexError ==> o.Shown?)
        && FilledAs(o)
    {
      var selected, crypt, library := GetSelectedCards(rows);
      if |selected| == 0 {
        return Complained(NoSelection);
      }
      if library && crypt {
        return Complained(MixedSelection);
      }
      assert crypt == IsCryptCard(rows[0]) by {
        assert 0 < |rows|;
      }
      SizeTable(all, selected, crypt);
      if total <= openingDraw {
        return Complained(if crypt then CryptTooSmall else LibraryTooSmall);
      }
      FillOutcome(all, rows, crypt);
      if selectedCount == 0 {
        return NamesIndexError;
      }
      var table := FillTable();
      DefaultColumns();
      o := Shown(table.value);
      ShownTable(o);
    }

    /** What the selected copies tell about the table's values: they are at
        most the deck, and none exactly when no selected card is listed. */
    lemma FillOutcome(all: seq<AbstractCard>, rows: seq<AbstractCard>, crypt: bool)
      requires Typed(all) && Typed(rows) && SizedFor(all, rows, crypt)
      requires forall i :: 0 <= i < |rows| ==> IsCryptCard(rows[i]) == crypt
      ensures 0 <= selectedCount <= total
      ensures selectedCount == 0 <==> forall c :: c in rows ==> c !in all
    {
      PickedBound(all, rows);
      PickedIn(all, rows);
      if selectedCount > 0 {
        assert Picked(all, rows)[0] in Picked(all, rows);
      }
    }

    /** The table filled with a step of one, by columns of draws. */
    lemma ShownTable(o: Outcome)
      requires drawStep == 1 && o.Shown?
      requires |o.table| == (if cardsToDraw > 0 then cardsToDraw else 0) + 1
      requires forall row :: 0 <= row < |o.table| ==>
        |o.table[row]| == (if numSteps > 0 then numSteps else 0)
        && forall col :: 0 <= col < |o.table[row]| ==>
             HyperProb(row, Draws(col), selectedCount, total) == Ok(o.table[row][col])
      requires cardsToDraw >= 0
      ensures FilledAs(o)
    {
      forall row, col | 0 <= row < |o.table| && 0 <= col < |o.table[row]|
        ensures HyperProb(row, col + openingDraw, selectedCount, total) == Ok(o.table[row][col])
      {
        assert Draws(col) == col + openingDraw;
      }
    }

    /** With the step of one the dialog opens with, no column draws more
        than the deck holds, so the table fails only for a selection none
        of whose cards is in the list. */
    lemma DefaultColumns()
      requires Settled() && drawStep == 1
      ensures forall col :: 0 <= col < numSteps ==> 0 < Draws(col) < total
      ensures (exists col :: 0 <= col < numSteps && Invalid(0, Draws(col), selectedCount, total))
              <==> selectedCount <= 0 || selectedCount > total
    {
      assert Draws(0) == openingDraw;
    }
  }

  /** A step larger than one can raise: a crypt of 12 opens the dialog with
      8 columns at most, and 8 columns of 2 draw 18 cards in the last one. */
  lemma LargeStepRaises()
    ensures Min(15, 12 - 4) == 8
    ensures (8 - 1) * 2 + 4 == 18
    ensures Invalid(0, (8 - 1) * 2 + 4, 1, 12)
  {
  }
}
