/** The card image frame's paths: the directory an expansion's scans are
    kept under, the file name a card's scan has, and the address of the
    scan on the image site. The expansion lookup in the database, the
    removal of accents and the file checks are outside the model: the
    lookup's result and the unaccented name are parameters. */
module CardImages {
  import opened Wrappers
  import opened PyStr

  // ---------------------------------------------------------------------
  // _convert_expansion
  // ---------------------------------------------------------------------

  /** An expansion as the database holds it. */
  datatype Expansion = Expansion(name: string, shortname: string)

  /** The expansion whose shortname is a promotional placeholder, so its
      full name is used. */
  const AnarchsAndAlastors: string := "Anarchs and Alastors Storyline"

  /** The name the directory is made from: the full name for Anarchs and
      Alastors, the shortname otherwise. */
  function DirectorySource(e: Expansion): string {
    if e.name == AnarchsAndAlastors then e.name else e.shortname
  }

  /** `_convert_expansion`: nothing for an empty name, when expansions are
      not shown, or when the name is no longer in the database (`found` is
      `None`); otherwise the lower-cased name with spaces made `_` and
      apostrophes dropped. */
  function ConvertExpansion(expansionName: string, showExpansions: bool, found: Option<Expansion>): string {
    if expansionName == "" || !showExpansions then ""
    else
      match found
      case None => ""
      case Some(e) => Replace(Replace(Lower(DirectorySource(e)), " ", "_"), "'", "")
  }

  /** The directory name character by character: the lower-cased
      characters of the name, spaces as `_`, apostrophes left out; so it has
      no space, no apostrophe and no upper-case letter. */
  lemma ConvertExpansionMeaning(expansionName: string, showExpansions: bool, found: Option<Expansion>)
    ensures expansionName == "" || !showExpansions || found.None? ==>
      ConvertExpansion(expansionName, showExpansions, found) == ""
    ensures expansionName != "" && showExpansions && found.Some? ==>
      ConvertExpansion(expansionName, showExpansions, found) ==
        Without(Replace(Lower(DirectorySource(found.value)), " ", "_"), "'")
    ensures var r := ConvertExpansion(expansionName, showExpansions, found);
      ' ' !in r && '\'' !in r && forall i :: 0 <= i < |r| ==> !('A' <= r[i] <= 'Z')
  {
    if expansionName != "" && showExpansions && found.Some? {
      var low := Lower(DirectorySource(found.value));
      assert forall i :: 0 <= i < |low| ==> !('A' <= low[i] <= 'Z');
      SpacesAndApostrophes(low);
    }
  }

  /** Spaces made `_` and apostrophes dropped: neither is left, and no
      upper-case letter comes in. */
  lemma SpacesAndApostrophes(low: string)
    requires forall i :: 0 <= i < |low| ==> !('A' <= low[i] <= 'Z')
    ensures var r := Replace(Replace(low, " ", "_"), "'", "");
      r == Without(Replace(low, " ", "_"), "'") &&
      ' ' !in r && '\'' !in r && forall i :: 0 <= i < |r| ==> !('A' <= r[i] <= 'Z')
  {
    ReplaceCharAt(low, ' ', '_');
    var t := Replace(low, " ", "_");
    assert ' ' !in t;
    ReplaceDeletes(t, '\'');
    WithoutChars(t, "'");
    var r := Without(t, "'");
    forall i | 0 <= i < |r| ensures !('A' <= r[i] <= 'Z') {
      assert r[i] in t;
    }
  }

  // ---------------------------------------------------------------------
  // _make_card_url
  // ---------------------------------------------------------------------

  /** Where the scans are. */
  const ImageHost: string := "http://nekhomanta.h2.pl/pics/games/vtes/"

  /** The directory names from the local layout that differ on the image
      site. */
  predicate Renamed(path: string) {
    path == "nergal_storyline" || path == "anarchs_and_alastors_storyline" ||
    path == "edens_legacy_storyline" || path == "cultist_storyline" ||
    path == "white_wolf_2003_demo" || path == "third"
  }

  /** The image site's directory for a local one. */
  function SitePath(path: string): string {
    if path == "nergal_storyline" then "isl"
    else if path == "anarchs_and_alastors_storyline" then "aa"
    else if path == "edens_legacy_storyline" then "el"
    else if path == "cultist_storyline" then "csl"
    else if path == "white_wolf_2003_demo" then "dd"
    else if path == "third" then "3e"
    else path
  }

  /** Exactly the six renamed directories change, each to a name that is
      not itself renamed. */
  lemma SitePathRenames(path: string)
    ensures SitePath(path) != path <==> Renamed(path)
    ensures !Renamed(SitePath(path))
  {
    if Renamed(path) {
      assert |SitePath(path)| <= 3;
    }
  }

  /** `_make_card_url` from the directory and the file name: nothing when
      either is empty, otherwise the scan's address. */
  function MakeCardUrl(expansionPath: string, fileName: string): string {
    if expansionPath == "" || fileName == "" then ""
    else ImageHost + SitePath(expansionPath) + "/" + fileName
  }

  /** The address is empty exactly when a part is missing; otherwise it is
      the host, the site's directory for the expansion, and the file. */
  lemma MakeCardUrlShape(expansionPath: string, fileName: string)
    ensures MakeCardUrl(expansionPath, fileName) == "" <==> expansionPath == "" || fileName == ""
    ensures expansionPath != "" && fileName != "" ==>
      var u := MakeCardUrl(expansionPath, fileName);
      StartsWith(u, ImageHost) && EndsWith(u, "/" + fileName) &&
      u[|ImageHost|..|u| - |fileName| - 1] == SitePath(expansionPath)
  {
    if expansionPath != "" && fileName != "" {
      var u := MakeCardUrl(expansionPath, fileName);
      var m := SitePath(expansionPath);
      assert u == ImageHost + m + ("/" + fileName);
      assert u[..|ImageHost|] == ImageHost;
      assert u[|u| - |fileName| - 1..] == "/" + fileName;
      assert u[|ImageHost|..|u| - |fileName| - 1] == m;
    }
  }

  /** `_make_card_url` for the frame's current card: the converted
      expansion and the normalised card name joined by `MakeCardUrl`. */
  function CardUrl(expansionName: string, showExpansions: bool, found: Option<Expansion>, cardName: string): string {
    MakeCardUrl(ConvertExpansion(expansionName, showExpansions, found), NormName(cardName))
  }

  /** The file name is never empty, so there is an address exactly when the
      expansion gives a directory, and the address ends with the card's
      file name. */
  lemma CardUrlWhenDirectory(expansionName: string, showExpansions: bool, found: Option<Expansion>, cardName: string)
    ensures var u := CardUrl(expansionName, showExpansions, found, cardName);
      (u == "" <==> ConvertExpansion(expansionName, showExpansions, found) == "") &&
      (u != "" ==> StartsWith(u, ImageHost) && EndsWith(u, "/" + NormName(cardName)))
  {
    MakeCardUrlShape(ConvertExpansion(expansionName, showExpansions, found), NormName(cardName));
  }

  // ---------------------------------------------------------------------
  // _norm_cardname
  // ---------------------------------------------------------------------

  /** The characters taken out of the file name. */
  const Dropped: string := " .,'()-:!\"/"

  /** A leading `the ` or `an ` moved to the end, without its space. */
  function MoveArticle(s: string): string {
    if StartsWith(s, "the ") then s[4..] + "the"
    else if StartsWith(s, "an ") then s[3..] + "an"
    else s
  }

  /** The normalised file name of an (unaccented) card name. */
  function NormName(name: string): string {
    ReplaceEach(Replace(MoveArticle(name), "(advanced)", "adv"), Dropped, "") + ".jpg"
  }

  /** `_norm_cardname`: the article moved, `(advanced)` shortened to
      `adv`, each dropped character removed in turn, and `.jpg` added. */
  method NormCardName(name: string) returns (r: string)
    ensures r == NormName(name)
  {
    var s := name;
    if StartsWith(s, "the ") {
      s := s[4..] + "the";
    } else if StartsWith(s, "an ") {
      s := s[3..] + "an";
    }
    s := Replace(s, "(advanced)", "adv");
    s := ReplaceChars(s, Dropped, "");
    r := s + ".jpg";
  }

  /** The file name is the moved and shortened name with the dropped
      characters left out, then `.jpg`. */
  lemma NormNameDeletes(name: string)
    ensures NormName(name) == Without(Replace(MoveArticle(name), "(advanced)", "adv"), Dropped) + ".jpg"
  {
    ReplaceEachDeletes(Replace(MoveArticle(name), "(advanced)", "adv"), Dropped);
  }

  /** The file name keeps exactly the characters of the moved and
      shortened name that are not dropped, and ends with `.jpg`. */
  lemma NormNameMeaning(name: string)
    ensures EndsWith(NormName(name), ".jpg")
    ensures var stem := Replace(MoveArticle(name), "(advanced)", "adv");
      NormName(name)[..|NormName(name)| - 4] == Without(stem, Dropped) &&
      forall c :: c in NormName(name)[..|NormName(name)| - 4] <==> c in stem && c !in Dropped
  {
    var stem := Replace(MoveArticle(name), "(advanced)", "adv");
    NormNameDeletes(name);
    var w := Without(stem, Dropped);
    assert NormName(name)[..|w|] == w;
    assert NormName(name)[|w|..] == ".jpg";
    WithoutChars(stem, Dropped);
  }

  /** The article's letters are not dropped. */
  lemma TheKept()
    ensures Without("the", Dropped) == "the"
  {
    WithoutKeeps("the", Dropped);
  }

  /** The letters of `adv` are not dropped. */
  lemma AdvKept()
    ensures Without("adv", Dropped) == "adv"
  {
    WithoutKeeps("adv", Dropped);
  }

  /** A space is dropped. */
  lemma SpaceDropped()
    ensures Without(" ", Dropped) == ""
  {
    WithoutAll(" ", Dropped);
  }

  /** For a name without parentheses: a leading `the ` goes to the end as
      `the`, and the rest loses its dropped characters. */
  lemma NormNameThe(rest: string)
    requires '(' !in rest
    ensures NormName("the " + rest) == Without(rest, Dropped) + "the" + ".jpg"
  {
    var s := "the " + rest;
    assert s[..4] == "the ";
    assert s[4..] == rest;
    assert MoveArticle(s) == rest + "the";
    NormNameDeletes(s);
    assert '(' !in rest + "the";
    ReplaceAbsent(rest + "the", "(advanced)", "adv");
    WithoutConcat(rest, "the", Dropped);
    TheKept();
  }

  /** A final ` (advanced)` after text without parentheses is the one
      occurrence replaced. */
  lemma AdvancedShortened(base: string)
    requires '(' !in base
    ensures Replace(base + " (advanced)", "(advanced)", "adv") == base + " " + "adv"
  {
    assert base + " (advanced)" == (base + " ") + "(advanced)";
    ReplaceAtEnd(base + " ", "(advanced)", "adv");
  }

  /** The space before `adv` is dropped and `adv` is kept. */
  lemma AdvancedKept(base: string)
    ensures Without(base + " " + "adv", Dropped) == Without(base, Dropped) + "adv"
  {
    WithoutConcat(base + " ", "adv", Dropped);
    WithoutConcat(base, " ", Dropped);
    AdvKept();
    SpaceDropped();
  }

  /** For a name without an article whose only parenthesis is a final
      ` (advanced)`: that becomes `adv`. */
  lemma NormNameAdvanced(base: string)
    requires '(' !in base
    requires !StartsWith(base + " (advanced)", "the ") && !StartsWith(base + " (advanced)", "an ")
    ensures NormName(base + " (advanced)") == Without(base, Dropped) + "adv" + ".jpg"
  {
    var s := base + " (advanced)";
    assert MoveArticle(s) == s;
    NormNameDeletes(s);
    AdvancedShortened(base);
    AdvancedKept(base);
  }
}
