/** The icons shown beside clans, card types, creeds, disciplines and
    virtues: the file name each property's icon has, the bounding box of
    the opaque pixels used to crop an icon, and the manager that loads each
    icon file once and keeps it. Reading an image file and scaling it are
    a loading function the caller supplies. */
module IconManager {
  import opened Wrappers
  import opened PyStr
  import opened Cards

  // ---------------------------------------------------------------------
  // Icon file names
  // ---------------------------------------------------------------------

  datatype Clan = Clan(name: string, shortname: string)
  datatype CardType = CardType(name: string)
  datatype Creed = Creed(name: string, shortname: string)
  datatype Virtue = Virtue(name: string)

  const Gif: string := ".gif"
  const ClanPrefix: string := "IconClan"
  const TypePrefix: string := "IconType"
  const DisPrefix: string := "IconDis"

  /** `p + m + q` starts with `p`, ends with `q`, and has `m` between. */
  lemma Framed(p: string, m: string, q: string)
    ensures StartsWith(p + m + q, p) && EndsWith(p + m + q, q)
    ensures (p + m + q)[|p|..|p| + |m|] == m
  {
    var s := p + m + q;
    assert s[..|p|] == p;
    assert s[|s| - |q|..] == q;
  }

  /** The capitalised first three characters of `s`. */
  predicate CapitalisedStem(stem: string, s: string) {
    |stem| == (if |s| < 3 then |s| else 3) &&
    forall i :: 0 <= i < |stem| ==> stem[i] == (if i == 0 then UpperChar(s[0]) else LowerChar(s[i]))
  }

  lemma CapitalisedTake(s: string)
    ensures CapitalisedStem(Capitalize(Take(s, 3)), s)
  {
  }

  /** `_get_clan_filename`: a shortname starting with `!` (an antitribu)
      names `IconClan<Xyz>A.gif` from the next three characters, `Tz` names
      `IconClanTzi.gif`, and any other shortname names `IconClan<Xyz>.gif`
      from its first three. */
  function ClanFileName(c: Clan): string
    requires |c.shortname| > 0
  {
    if c.shortname[0] == '!' then ClanPrefix + (Capitalize(Take(c.shortname[1..], 3)) + "A") + Gif
    else if c.shortname == "Tz" then ClanPrefix + "Tzi" + Gif
    else ClanPrefix + Capitalize(Take(c.shortname, 3)) + Gif
  }

  /** A clan's file name is `IconClan`, a stem, then `.gif`; the stem is the
      capitalised next three characters and `A` for an antitribu, `Tzi` for
      the Tzimisce, and the capitalised first three characters otherwise. */
  lemma ClanFileNameStem(c: Clan)
    requires |c.shortname| > 0
    ensures var f := ClanFileName(c);
      StartsWith(f, ClanPrefix) && EndsWith(f, Gif) && |f| >= |ClanPrefix| + |Gif| &&
      var stem := f[|ClanPrefix|..|f| - |Gif|];
      (c.shortname[0] == '!' ==>
        |stem| > 0 && stem[|stem| - 1] == 'A' && CapitalisedStem(stem[..|stem| - 1], c.shortname[1..])) &&
      (c.shortname == "Tz" ==> stem == "Tzi") &&
      (c.shortname[0] != '!' && c.shortname != "Tz" ==> CapitalisedStem(stem, c.shortname))
  {
    var sn := c.shortname;
    if sn[0] == '!' {
      var m := Capitalize(Take(sn[1..], 3)) + "A";
      Framed(ClanPrefix, m, Gif);
      CapitalisedTake(sn[1..]);
      assert m[..|m| - 1] == Capitalize(Take(sn[1..], 3));
    } else if sn == "Tz" {
      Framed(ClanPrefix, "Tzi", Gif);
    } else {
      Framed(ClanPrefix, Capitalize(Take(sn, 3)), Gif);
      CapitalisedTake(sn);
    }
  }

  /** Only the first four characters of the shortname matter. */
  lemma ClanFileNameFirstFour(a: Clan, b: Clan)
    requires |a.shortname| > 0 && |b.shortname| > 0
    requires Take(a.shortname, 4) == Take(b.shortname, 4)
    ensures ClanFileName(a) == ClanFileName(b)
  {
    var x, y := a.shortname, b.shortname;
    assert x[0] == Take(x, 4)[0] && y[0] == Take(y, 4)[0];
    assert Take(x[1..], 3) == Take(x, 4)[1..] && Take(y[1..], 3) == Take(y, 4)[1..];
    assert Take(x, 3) == Take(x, 4)[..|Take(x, 3)|] && Take(y, 3) == Take(y, 4)[..|Take(y, 3)|];
    if x == "Tz" {
      assert Take(x, 4) == x;
    }
    if y == "Tz" {
      assert Take(y, 4) == y;
    }
  }

  /** The card types that have no icon. */
  predicate NoIconType(name: string) {
    name == "Master" || name == "Vampire" || name == "Imbued"
  }

  /** `_get_card_type_filename`: four types have their own names, Master,
      Vampire and Imbued have none, the others `IconType<Name>.gif`. */
  function CardTypeFileName(t: CardType): Option<string> {
    if t.name == "Conviction" then Some("IconConviction" + Gif)
    else if t.name == "Equipment" then Some(TypePrefix + "Equip" + Gif)
    else if t.name == "Political Action" then Some(TypePrefix + "Political" + Gif)
    else if t.name == "Action Modifier" then Some(TypePrefix + "Modifier" + Gif)
    else if NoIconType(t.name) then None
    else Some(TypePrefix + Capitalize(t.name) + Gif)
  }

  /** A card type has no icon exactly when it is Master, Vampire or
      Imbued; every icon name ends in `.gif`, and the types without a name
      of their own get `IconType` and their capitalised name. */
  lemma CardTypeFileNameCases(t: CardType)
    ensures CardTypeFileName(t).None? <==> NoIconType(t.name)
    ensures CardTypeFileName(t).Some? ==> EndsWith(CardTypeFileName(t).value, Gif)
    ensures CardTypeFileName(t).Some? && t.name !in ["Conviction", "Equipment", "Political Action", "Action Modifier"] ==>
      var f := CardTypeFileName(t).value;
      StartsWith(f, TypePrefix) && f[|TypePrefix|..|f| - |Gif|] == Capitalize(t.name)
  {
    if t.name == "Conviction" {
      Framed("IconConviction", "", Gif);
      assert "IconConviction" + "" + Gif == "IconConviction" + Gif;
    } else if t.name == "Equipment" {
      Framed(TypePrefix, "Equip", Gif);
    } else if t.name == "Political Action" {
      Framed(TypePrefix, "Political", Gif);
    } else if t.name == "Action Modifier" {
      Framed(TypePrefix, "Modifier", Gif);
    } else {
      Framed(TypePrefix, Capitalize(t.name), Gif);
    }
  }

  /** `_get_creed_filename`: `IconCreed<Xyz>.gif`. */
  function CreedFileName(c: Creed): string {
    "IconCreed" + Capitalize(Take(c.shortname, 3)) + Gif
  }

  /** A creed's file name holds its capitalised first three characters. */
  lemma CreedFileNameStem(c: Creed)
    ensures var f := CreedFileName(c);
      StartsWith(f, "IconCreed") && EndsWith(f, Gif) &&
      CapitalisedStem(f[|"IconCreed"|..|f| - |Gif|], c.shortname)
  {
    Framed("IconCreed", Capitalize(Take(c.shortname, 3)), Gif);
    CapitalisedTake(c.shortname);
  }

  /** `_get_virtue_filename`: `IconVirtue<Name>.gif`. */
  function VirtueFileName(v: Virtue): string {
    "IconVirtue" + Capitalize(v.name) + Gif
  }

  /** A virtue's file name holds its whole name, capitalised. */
  lemma VirtueFileNameStem(v: Virtue)
    ensures var f := VirtueFileName(v);
      StartsWith(f, "IconVirtue") && EndsWith(f, Gif) &&
      f[|"IconVirtue"|..|f| - |Gif|] == Capitalize(v.name)
  {
    Framed("IconVirtue", Capitalize(v.name), Gif);
  }

  /** `_get_discipline_filename`: `IconDis<Name>.gif` at inferior,
      `IconFlight.gif` for Flight otherwise, and `IconDis<Name>2.gif` for
      the other disciplines at superior. */
  function DisciplineFileName(d: DisciplinePair): string {
    if d.level == "inferior" then DisPrefix + Capitalize(d.discipline.name) + Gif
    else if d.discipline.fullName == "Flight" then "IconFlight" + Gif
    else DisPrefix + (Capitalize(d.discipline.name) + "2") + Gif
  }

  /** The superior icon of a discipline other than Flight is its inferior
      icon with a `2` before `.gif`; superior Flight has its own icon, and
      every discipline icon name ends in `.gif`. */
  lemma DisciplineLevels(d: DisciplinePair, inf: DisciplinePair)
    requires inf.discipline == d.discipline && inf.level == "inferior" && d.level != "inferior"
    ensures EndsWith(DisciplineFileName(d), Gif) && EndsWith(DisciplineFileName(inf), Gif)
    ensures d.discipline.fullName != "Flight" ==>
      DisciplineFileName(d) == DropSuffix(DisciplineFileName(inf), |Gif|) + "2" + Gif
    ensures d.discipline.fullName == "Flight" ==> DisciplineFileName(d) == "IconFlight" + Gif
  {
    var n := Capitalize(d.discipline.name);
    Framed(DisPrefix, n, Gif);
    if d.discipline.fullName == "Flight" {
      Framed("IconFlight", "", Gif);
      assert "IconFlight" + "" + Gif == "IconFlight" + Gif;
    } else {
      Framed(DisPrefix, n + "2", Gif);
      assert DropSuffix(DisPrefix + n + Gif, |Gif|) == DisPrefix + n;
    }
  }

  // ---------------------------------------------------------------------
  // The opaque bounding box
  // ---------------------------------------------------------------------

  newtype Byte = b: int | 0 <= b < 256

  /** The margins: the least and greatest column and row seen. */
  datatype Box = Box(minX: int, minY: int, maxX: int, maxY: int)

  /** The margins before any opaque pixel: the minima start at 1000 and
      the maxima at -1. */
  const NoBox: Box := Box(1000, 1000, -1, -1)

  /** Where `_crop_alpha` is after `i` bytes: the byte offset within the
      row and the row, the offset going back to 0 and the row on by one
      when the offset reaches the row length. A row length of 0 is never
      reached. */
  function Position(i: nat, rowLength: nat): (nat, nat)
    decreases i
  {
    if i == 0 then (0, 0)
    else
      var p := Position(i - 1, rowLength);
      if p.0 + 1 == rowLength then (0, p.1 + 1) else (p.0 + 1, p.1)
  }

  /** The byte offset within its row of the byte at `i`. */
  function Column(i: nat, rowLength: nat): nat {
    Position(i, rowLength).0
  }

  /** The row of the byte at `i`. */
  function Row(i: nat, rowLength: nat): nat {
    Position(i, rowLength).1
  }

  /** The bytes are read row by row: the byte `j` of row `k` is at
      `k * rowLength + j`. */
  lemma {:induction false} PositionAt(k: nat, j: nat, rowLength: nat)
    requires j < rowLength
    ensures Position(k * rowLength + j, rowLength) == (j, k)
    decreases k, j
  {
    if j > 0 {
      PositionAt(k, j - 1, rowLength);
    } else if k > 0 {
      assert k * rowLength - 1 == (k - 1) * rowLength + (rowLength - 1);
      PositionAt(k - 1, rowLength - 1, rowLength);
    }
  }

  /** A row length of 0 keeps every byte in the first row. */
  lemma {:induction false} PositionNoRows(i: nat)
    ensures Position(i, 0) == (i, 0)
  {
    if i > 0 {
      PositionNoRows(i - 1);
    }
  }

  /** The byte at `i` is an alpha byte (RGBA order) of value 255. */
  predicate Opaque(pixels: seq<Byte>, rowLength: nat, i: nat)
    requires i < |pixels|
  {
    Column(i, rowLength) % 4 == 3 && pixels[i] == 255
  }

  /** The pixel column of the byte at `i`. */
  function PixelX(i: nat, rowLength: nat): nat {
    Column(i, rowLength) / 4
  }

  /** `_check_margins` applied to both coordinates. */
  function Widen(b: Box, x: int, y: int): Box {
    Box(if x < b.minX then x else b.minX, if y < b.minY then y else b.minY,
      if x > b.maxX then x else b.maxX, if y > b.maxY then y else b.maxY)
  }

  /** The margins after the bytes of `pixels`, in order. */
  function BoxOf(pixels: seq<Byte>, rowLength: nat): Box
    decreases |pixels|
  {
    if |pixels| == 0 then NoBox
    else
      var i := |pixels| - 1;
      var b := BoxOf(pixels[..i], rowLength);
      if Opaque(pixels, rowLength, i) then Widen(b, PixelX(i, rowLength), Row(i, rowLength)) else b
  }

  /** `_check_margins`: a minimum and a maximum that take in `v`. */
  method CheckMargins(v: int, max: int, min: int) returns (max': int, min': int)
    ensures min' == (if v < min then v else min)
    ensures max' == (if v > max then v else max)
  {
    max', min' := max, min;
    if v < min' {
      min' := v;
    }
    if v > max' {
      max' := v;
    }
  }

  /** The scan of `_crop_alpha`: the margins of the opaque pixels of an
      image `width` pixels wide. */
  method OpaqueBox(pixels: seq<Byte>, width: nat) returns (b: Box)
    ensures b == BoxOf(pixels, width * 4)
  {
    var rowLength := width * 4;
    var maxX, maxY := -1, -1;
    var minX, minY := 1000, 1000;
    var xPos, yPos := 0, 0;
    var i := 0;
    while i < |pixels|
      invariant 0 <= i <= |pixels|
      invariant xPos == Column(i, rowLength) && yPos == Row(i, rowLength)
      invariant Box(minX, minY, maxX, maxY) == BoxOf(pixels[..i], rowLength)
    {
      assert pixels[..i + 1][..i] == pixels[..i];
      if xPos % 4 == 3 {
        if pixels[i] == 255 {
          maxX, minX := CheckMargins(xPos / 4, maxX, minX);
          maxY, minY := CheckMargins(yPos, maxY, minY);
        }
      }
      xPos := xPos + 1;
      if xPos == rowLength {
        yPos := yPos + 1;
        xPos := 0;
      }
      i := i + 1;
    }
    assert pixels[..i] == pixels;
    b := Box(minX, minY, maxX, maxY);
  }

  /** The margins bound every opaque pixel; the maxima stay -1 exactly when
      there is no opaque pixel, and the minima never exceed 1000. */
  lemma {:induction false} BoxBounds(pixels: seq<Byte>, rowLength: nat)
    ensures var b := BoxOf(pixels, rowLength);
      b.minX <= 1000 && b.minY <= 1000 && b.maxX >= -1 && b.maxY >= -1 &&
      (forall i :: 0 <= i < |pixels| && Opaque(pixels, rowLength, i) ==>
        b.minX <= PixelX(i, rowLength) <= b.maxX && b.minY <= Row(i, rowLength) <= b.maxY) &&
      ((b.maxX == -1) <==> (forall i :: 0 <= i < |pixels| ==> !Opaque(pixels, rowLength, i))) &&
      ((b.maxY == -1) <==> (forall i :: 0 <= i < |pixels| ==> !Opaque(pixels, rowLength, i)))
    decreases |pixels|
  {
    if |pixels| > 0 {
      var n := |pixels| - 1;
      var pre := pixels[..n];
      BoxBounds(pre, rowLength);
      forall i | 0 <= i < n ensures Opaque(pre, rowLength, i) == Opaque(pixels, rowLength, i) {
      }
    }
  }

  /** Each margin that moved from its start is the coordinate of an opaque
      pixel: the returned indices are such pixels. */
  lemma {:induction false} BoxAttained(pixels: seq<Byte>, rowLength: nat)
    returns (iMinX: nat, iMinY: nat, iMaxX: nat, iMaxY: nat)
    ensures var b := BoxOf(pixels, rowLength);
      (b.minX != 1000 ==> iMinX < |pixels| && Opaque(pixels, rowLength, iMinX) && PixelX(iMinX, rowLength) == b.minX) &&
      (b.minY != 1000 ==> iMinY < |pixels| && Opaque(pixels, rowLength, iMinY) && Row(iMinY, rowLength) == b.minY) &&
      (b.maxX != -1 ==> iMaxX < |pixels| && Opaque(pixels, rowLength, iMaxX) && PixelX(iMaxX, rowLength) == b.maxX) &&
      (b.maxY != -1 ==> iMaxY < |pixels| && Opaque(pixels, rowLength, iMaxY) && Row(iMaxY, rowLength) == b.maxY)
    decreases |pixels|
  {
    iMinX, iMinY, iMaxX, iMaxY := 0, 0, 0, 0;
    if |pixels| > 0 {
      var n := |pixels| - 1;
      var pre := pixels[..n];
      iMinX, iMinY, iMaxX, iMaxY := BoxAttained(pre, rowLength);
      forall i | 0 <= i < n ensures Opaque(pre, rowLength, i) == Opaque(pixels, rowLength, i) {
      }
      var b := BoxOf(pre, rowLength);
      if Opaque(pixels, rowLength, n) {
        var x, y := PixelX(n, rowLength), Row(n, rowLength);
        if x < b.minX { iMinX := n; }
        if y < b.minY { iMinY := n; }
        if x > b.maxX { iMaxX := n; }
        if y > b.maxY { iMaxY := n; }
      }
    }
  }

  /** A rectangle of an image: its corner, width and height. */
  datatype Region = Region(x: int, y: int, width: int, height: int)

  /** The rectangle `_crop_alpha` cuts from the margins. */
  function CropRegion(b: Box): Region {
    Region(b.minX + 1, b.minY + 1, b.maxX - b.minX, b.maxY - b.minY)
  }

  /** `_crop_alpha`: the rectangle starting one past the least opaque
      column and row and ending at the greatest. */
  method CropAlpha(pixels: seq<Byte>, width: nat) returns (r: Region)
    ensures r == CropRegion(BoxOf(pixels, width * 4))
  {
    var b := OpaqueBox(pixels, width);
    r := Region(b.minX + 1, b.minY + 1, b.maxX - b.minX, b.maxY - b.minY);
  }

  /** What the cut rectangle holds: every opaque pixel right of the least
      opaque column and below the least opaque row is inside it, and its
      last column and row are the greatest opaque ones. */
  lemma CropRegionCovers(pixels: seq<Byte>, rowLength: nat)
    ensures var b := BoxOf(pixels, rowLength);
      var r := CropRegion(b);
      r.x + r.width - 1 == b.maxX && r.y + r.height - 1 == b.maxY &&
      forall i :: (0 <= i < |pixels| && Opaque(pixels, rowLength, i) &&
                   PixelX(i, rowLength) != b.minX && Row(i, rowLength) != b.minY) ==>
        r.x <= PixelX(i, rowLength) < r.x + r.width && r.y <= Row(i, rowLength) < r.y + r.height
  {
    BoxBounds(pixels, rowLength);
  }

  // ---------------------------------------------------------------------
  // The icon cache
  // ---------------------------------------------------------------------

  /** The cache after asking for `file` at `size`: a file not asked for
      before is loaded and kept, whatever the load gave (`None` when it
      failed); the empty name is never loaded. */
  function Remember<Icon>(cache: map<string, Option<Icon>>, file: string, size: nat,
                          load: (string, nat) -> Option<Icon>): map<string, Option<Icon>> {
    if file == "" || file in cache then cache else cache[file := load(file, size)]
  }

  /** The icon a cache holds for `file`; none for the empty name. */
  function Lookup<Icon>(cache: map<string, Option<Icon>>, file: string): Option<Icon>
    requires file == "" || file in cache
  {
    if file == "" then None else cache[file]
  }

  /** A cache `c2` that keeps every entry of `c1`. */
  ghost predicate Extends<Icon>(c2: map<string, Option<Icon>>, c1: map<string, Option<Icon>>) {
    forall f :: f in c1 ==> f in c2 && c2[f] == c1[f]
  }

  /** An entry once made is never replaced, not even a failed load; the
      file asked for is then held, as the load at that size gave it when it
      was new. */
  lemma RememberKeeps<Icon>(cache: map<string, Option<Icon>>, file: string, size: nat,
                            load: (string, nat) -> Option<Icon>)
    ensures var c := Remember(cache, file, size, load);
      Extends(c, cache) && (file == "" || file in c) &&
      (file != "" && file !in cache ==> c[file] == load(file, size)) &&
      (forall f :: f in c && f !in cache ==> f == file)
  {
  }

  /** Asking again, at any size, changes nothing: the icon is loaded once
      and the first size asked for stays. */
  lemma RememberOnce<Icon>(cache: map<string, Option<Icon>>, file: string, size: nat, size': nat,
                           load: (string, nat) -> Option<Icon>)
    ensures var c := Remember(cache, file, size, load);
      Remember(c, file, size', load) == c &&
      Lookup(c, file) == (if file == "" then None else if file in cache then cache[file] else load(file, size))
  {
  }

  /** One icon asked for per dictionary key: the key, the file name (empty
      when the value has no icon) and the size. */
  datatype Request = Request(key: string, file: string, size: nat)

  /** The cache after the requests in order. */
  function RememberAll<Icon>(cache: map<string, Option<Icon>>, rs: seq<Request>,
                             load: (string, nat) -> Option<Icon>): map<string, Option<Icon>>
    decreases |rs|
  {
    if |rs| == 0 then cache
    else
      var n := |rs| - 1;
      Remember(RememberAll(cache, rs[..n], load), rs[n].file, rs[n].size, load)
  }

  /** Every file of the requests is held by `cache`. */
  predicate Holds<Icon>(cache: map<string, Option<Icon>>, rs: seq<Request>) {
    forall k :: 0 <= k < |rs| ==> rs[k].file == "" || rs[k].file in cache
  }

  /** The dictionary built from the requests in order: each key maps to the
      cached icon of its file, a later request for the same key replacing
      an earlier one. */
  function IconsOf<Icon>(cache: map<string, Option<Icon>>, rs: seq<Request>): map<string, Option<Icon>>
    requires Holds(cache, rs)
    decreases |rs|
  {
    if |rs| == 0 then map[]
    else
      var n := |rs| - 1;
      IconsOf(cache, rs[..n])[rs[n].key := Lookup(cache, rs[n].file)]
  }

  /** After the requests the cache keeps what it had and holds every file
      asked for. */
  lemma {:induction false} RememberAllHolds<Icon>(cache: map<string, Option<Icon>>, rs: seq<Request>,
                                                  load: (string, nat) -> Option<Icon>)
    ensures Extends(RememberAll(cache, rs, load), cache)
    ensures Holds(RememberAll(cache, rs, load), rs)
    decreases |rs|
  {
    if |rs| > 0 {
      var n := |rs| - 1;
      var c := RememberAll(cache, rs[..n], load);
      RememberAllHolds(cache, rs[..n], load);
      RememberKeeps(c, rs[n].file, rs[n].size, load);
    }
  }

  /** The dictionary only reads the entries of the files asked for, so a
      cache that keeps them gives the same one. */
  lemma {:induction false} IconsOfExtends<Icon>(c1: map<string, Option<Icon>>, c2: map<string, Option<Icon>>, rs: seq<Request>)
    requires Holds(c1, rs) && Extends(c2, c1)
    ensures Holds(c2, rs) && IconsOf(c2, rs) == IconsOf(c1, rs)
    decreases |rs|
  {
    if |rs| > 0 {
      var n := |rs| - 1;
      assert Holds(c1, rs[..n]);
      IconsOfExtends(c1, c2, rs[..n]);
    }
  }

  /** The keys of the requests. */
  function KeysOf(rs: seq<Request>): set<string> {
    set k | 0 <= k < |rs| :: rs[k].key
  }

  /** The dictionary has exactly the keys asked for. */
  lemma {:induction false} IconsOfKeys<Icon>(cache: map<string, Option<Icon>>, rs: seq<Request>)
    requires Holds(cache, rs)
    ensures IconsOf(cache, rs).Keys == KeysOf(rs)
    decreases |rs|
  {
    if |rs| > 0 {
      var n := |rs| - 1;
      assert Holds(cache, rs[..n]);
      IconsOfKeys(cache, rs[..n]);
      assert KeysOf(rs) == KeysOf(rs[..n]) + {rs[n].key} by {
        forall key | key in KeysOf(rs) ensures key in KeysOf(rs[..n]) + {rs[n].key} {
          var k :| 0 <= k < |rs| && rs[k].key == key;
          if k < n {
            assert rs[..n][k].key == key;
          }
        }
        forall key | key in KeysOf(rs[..n]) ensures key in KeysOf(rs) {
          var k :| 0 <= k < n && rs[..n][k].key == key;
          assert rs[k].key == key;
        }
      }
    }
  }

  /** The icon under a key is the cached icon of the last request with
      that key. */
  lemma {:induction false} IconsOfLast<Icon>(cache: map<string, Option<Icon>>, rs: seq<Request>, k: nat)
    requires Holds(cache, rs) && k < |rs|
    requires forall l :: k < l < |rs| ==> rs[l].key != rs[k].key
    ensures rs[k].key in IconsOf(cache, rs) && IconsOf(cache, rs)[rs[k].key] == Lookup(cache, rs[k].file)
    decreases |rs|
  {
    var n := |rs| - 1;
    if k < n {
      assert Holds(cache, rs[..n]);
      assert rs[..n][k] == rs[k];
      assert forall l :: k < l < n ==> rs[..n][l] == rs[l];
      IconsOfLast(cache, rs[..n], k);
    }
  }

  /** A property whose icon is asked for. */
  datatype IconValue =
    | ClanValue(clan: Clan)
    | TypeValue(cardType: CardType)
    | DisciplineValue(pair: DisciplinePair)
    | VirtueValue(virtue: Virtue)
    | CreedValue(creed: Creed)
    | OtherValue

  /** Values of the kind of the first one, which `get_icon_list` assumes. */
  predicate SameKind(vs: seq<IconValue>) {
    forall k :: 0 <= k < |vs| ==> Kind(vs[k]) == Kind(vs[0])
  }

  /** Which kind of property a value is. */
  function Kind(v: IconValue): nat {
    match v
    case ClanValue(_) => 0
    case TypeValue(_) => 1
    case DisciplineValue(_) => 2
    case VirtueValue(_) => 3
    case CreedValue(_) => 4
    case OtherValue => 5
  }

  /** A clan value has a shortname `_get_clan_filename` can read. */
  predicate Readable(v: IconValue) {
    v.ClanValue? ==> |v.clan.shortname| > 0
  }

  /** The request the `_get_*_icons` helpers make for one value: the
      dictionary key is the clan, type, creed or virtue name, or the
      discipline's short name; superior disciplines are asked for at size
      14, the rest at 12. */
  function RequestFor(v: IconValue): Request
    requires Readable(v)
  {
    match v
    case ClanValue(c) => Request(c.name, ClanFileName(c), 12)
    case TypeValue(t) => Request(t.name, if CardTypeFileName(t).Some? then CardTypeFileName(t).value else "", 12)
    case DisciplineValue(d) => Request(d.discipline.name, DisciplineFileName(d), if d.level == "superior" then 14 else 12)
    case VirtueValue(x) => Request(x.name, VirtueFileName(x), 12)
    case CreedValue(c) => Request(c.name, CreedFileName(c), 12)
    case OtherValue => Request("", "", 12)
  }

  /** The requests for the values, in order. */
  function RequestsFor(vs: seq<IconValue>): (rs: seq<Request>)
    requires forall k :: 0 <= k < |vs| ==> Readable(vs[k])
    ensures |rs| == |vs| && forall k :: 0 <= k < |vs| ==> rs[k] == RequestFor(vs[k])
  {
    seq(|vs|, k requires 0 <= k < |vs| => RequestFor(vs[k]))
  }

  /** The manager: the icons loaded so far, by file name. */
  class IconManager<Icon> {
    var cache: map<string, Option<Icon>>

    constructor ()
      ensures cache == map[]
    {
      cache := map[];
    }

    /** `_get_icon`: none for the empty name; the kept icon when the file
        was asked for before; otherwise the load's result, kept. */
    method GetIcon(file: string, size: nat, load: (string, nat) -> Option<Icon>) returns (r: Option<Icon>)
      modifies this
      ensures cache == Remember(old(cache), file, size, load)
      ensures r == Lookup(cache, file)
    {
      if file == "" {
        return None;
      }
      if file in cache {
        return cache[file];
      }
      r := load(file, size);
      cache := cache[file := r];
    }

    /** `get_icon_by_name`: `burn option` and `advanced` name their icon
        files, loaded at the default size 12; any other name leaves the
        file name unbound, so the call raises UnboundLocalError (an error
        here) and the cache is untouched. */
    method GetIconByName(name: string, load: (string, nat) -> Option<Icon>) returns (r: Result<Option<Icon>, string>)
      modifies this
      ensures r.Err? <==> name != "burn option" && name != "advanced"
      ensures r.Err? ==> r.error == "UnboundLocalError" && cache == old(cache)
      ensures name == "burn option" ==>
        cache == Remember(old(cache), "IconBurn.gif", 12, load) && r == Ok(Lookup(cache, "IconBurn.gif"))
      ensures name == "advanced" ==>
        cache == Remember(old(cache), "IconAdv.gif", 12, load) && r == Ok(Lookup(cache, "IconAdv.gif"))
    {
      var file;
      if name == "burn option" {
        file := "IconBurn.gif";
      } else if name == "advanced" {
        file := "IconAdv.gif";
      } else {
        return Err("UnboundLocalError");
      }
      var icon := GetIcon(file, 12, load);
      r := Ok(icon);
    }

    /** The loop of the `_get_*_icons` helpers: the icon of each request
        under its key. */
    method IconMap(rs: seq<Request>, load: (string, nat) -> Option<Icon>) returns (icons: map<string, Option<Icon>>)
      modifies this
      ensures cache == RememberAll(old(cache), rs, load)
      ensures Holds(cache, rs) && icons == IconsOf(cache, rs)
    {
      icons := map[];
      var i := 0;
      while i < |rs|
        invariant 0 <= i <= |rs|
        invariant cache == RememberAll(old(cache), rs[..i], load)
        invariant Holds(cache, rs[..i]) && icons == IconsOf(cache, rs[..i])
      {
        assert rs[..i + 1][..i] == rs[..i];
        var before := cache;
        var icon := GetIcon(rs[i].file, rs[i].size, load);
        RememberKeeps(before, rs[i].file, rs[i].size, load);
        IconsOfExtends(before, cache, rs[..i]);
        icons := icons[rs[i].key := icon];
        i := i + 1;
      }
      assert rs[..i] == rs;
    }

    /** `get_icon_list`: none for no values or values of another kind;
        otherwise the dictionary of their icons. */
    method GetIconList(vs: seq<IconValue>, load: (string, nat) -> Option<Icon>)
      returns (r: Option<map<string, Option<Icon>>>)
      requires SameKind(vs) && forall k :: 0 <= k < |vs| ==> Readable(vs[k])
      modifies this
      ensures |vs| == 0 || vs[0].OtherValue? ==> r.None? && cache == old(cache)
      ensures |vs| > 0 && !vs[0].OtherValue? ==>
        cache == RememberAll(old(cache), RequestsFor(vs), load) && Holds(cache, RequestsFor(vs)) &&
        r == Some(IconsOf(cache, RequestsFor(vs)))
    {
      if |vs| == 0 {
        return None;
      }
      if vs[0].OtherValue? {
        return None;
      }
      var icons := IconMap(RequestsFor(vs), load);
      r := Some(icons);
    }
  }
}
