/** Card text formatting and the links to the card sites: the text clean-up
    done after parsing card text, and the URLs the exporters write for a
    card on the Monger and Secret Library sites. */
module SutekhUtility {
  import opened PyStr
  import opened Utility
  import opened Cards

  // ---------------------------------------------------------------------
  // format_text
  // ---------------------------------------------------------------------

  /** A discipline tag as the pattern `\[...\]` matches it: `[`, three
      characters other than a line break (`.` does not match one), `]`. */
  predicate IsTag(t: string) {
    |t| == 5 && t[0] == '[' && t[4] == ']' && t[1] != '\n' && t[2] != '\n' && t[3] != '\n'
  }

  /** The text the second substitution looks for after a tag. */
  const NotADis: string := " is not a Dis"

  /** The first substitution, `(\.|\.\)) (\[...\])` to `\1\n\2`: scanning
      from the left, a `.` or `.)` followed by a space and a tag has the
      space turned into a line break, and the scan resumes after the tag.
      The alternation tries `.` first, so `.)` is only taken when the
      character after the `.` is `)`. */
  function SplitTags(s: string): string
    decreases |s|
  {
    if |s| >= 7 && s[0] == '.' && s[1] == ' ' && IsTag(s[2..7]) then
      ".\n" + s[2..7] + SplitTags(s[7..])
    else if |s| >= 8 && s[0] == '.' && s[1] == ')' && s[2] == ' ' && IsTag(s[3..8]) then
      ".)\n" + s[3..8] + SplitTags(s[8..])
    else if |s| == 0 then ""
    else [s[0]] + SplitTags(s[1..])
  }

  /** The second substitution, `\n(\[...\] is not a Dis)` to ` \1`: a line
      break before a tag followed by ` is not a Dis` becomes a space. */
  function JoinNotADis(s: string): string
    decreases |s|
  {
    if |s| >= 19 && s[0] == '\n' && IsTag(s[1..6]) && s[6..19] == NotADis then
      " " + s[1..19] + JoinNotADis(s[19..])
    else if |s| == 0 then ""
    else [s[0]] + JoinNotADis(s[1..])
  }

  /** `format_text`: both substitutions, in order. */
  function FormatText(s: string): string {
    JoinNotADis(SplitTags(s))
  }

  /** A tag contains no line break. */
  lemma TagNoBreak(t: string)
    requires IsTag(t)
    ensures '\n' !in t
  {
    assert t == [t[0], t[1], t[2], t[3], t[4]];
  }

  /** `r` is `s` with some occurrences of `c` turned into `d`, and nothing
      else changed. */
  predicate SwapsOnly(s: string, r: string, c: char, d: char) {
    |r| == |s| && forall i :: 0 <= i < |s| ==> r[i] == s[i] || (s[i] == c && r[i] == d)
  }

  lemma SwapsConcat(s1: string, r1: string, s2: string, r2: string, c: char, d: char)
    requires SwapsOnly(s1, r1, c, d) && SwapsOnly(s2, r2, c, d)
    ensures SwapsOnly(s1 + s2, r1 + r2, c, d)
  {
    forall i | 0 <= i < |s1| + |s2|
      ensures (r1 + r2)[i] == (s1 + s2)[i] || ((s1 + s2)[i] == c && (r1 + r2)[i] == d)
    {
      if i >= |s1| {
        assert (r1 + r2)[i] == r2[i - |s1|] && (s1 + s2)[i] == s2[i - |s1|];
      }
    }
  }

  /** The first substitution keeps the length and only ever turns a space
      into a line break. */
  lemma {:induction false} SplitTagsAt(s: string)
    ensures SwapsOnly(s, SplitTags(s), ' ', '\n')
    decreases |s|
  {
    var n := if |s| >= 7 && s[0] == '.' && s[1] == ' ' && IsTag(s[2..7]) then 7
      else if |s| >= 8 && s[0] == '.' && s[1] == ')' && s[2] == ' ' && IsTag(s[3..8]) then 8
      else if |s| == 0 then 0 else 1;
    if n > 0 {
      SplitTagsAt(s[n..]);
      var h := if n == 7 then ".\n" + s[2..7] else if n == 8 then ".)\n" + s[3..8] else [s[0]];
      assert SplitTags(s) == h + SplitTags(s[n..]);
      assert SwapsOnly(s[..n], h, ' ', '\n');
      SwapsConcat(s[..n], h, s[n..], SplitTags(s[n..]), ' ', '\n');
      assert s[..n] + s[n..] == s;
    }
  }

  /** The second substitution keeps the length and only ever turns a line
      break into a space. */
  lemma {:induction false} JoinNotADisAt(s: string)
    ensures SwapsOnly(s, JoinNotADis(s), '\n', ' ')
    decreases |s|
  {
    var n := if |s| >= 19 && s[0] == '\n' && IsTag(s[1..6]) && s[6..19] == NotADis then 19
      else if |s| == 0 then 0 else 1;
    if n > 0 {
      JoinNotADisAt(s[n..]);
      var h := if n == 19 then " " + s[1..19] else [s[0]];
      assert JoinNotADis(s) == h + JoinNotADis(s[n..]);
      assert SwapsOnly(s[..n], h, '\n', ' ');
      SwapsConcat(s[..n], h, s[n..], JoinNotADis(s[n..]), '\n', ' ');
      assert s[..n] + s[n..] == s;
    }
  }

  /** `format_text` keeps the length and only exchanges spaces and line
      breaks: a space may become a line break, a line break a space. */
  lemma FormatTextAt(s: string)
    ensures |FormatText(s)| == |s|
    ensures forall i :: 0 <= i < |s| ==>
      FormatText(s)[i] == s[i] || (s[i] == ' ' && FormatText(s)[i] == '\n') ||
      (s[i] == '\n' && FormatText(s)[i] == ' ')
  {
    SplitTagsAt(s);
    JoinNotADisAt(SplitTags(s));
  }

  /** Text without a `.` passes the first substitution unchanged. */
  lemma {:induction false} SplitTagsFree(a: string, b: string)
    requires '.' !in a
    ensures SplitTags(a + b) == a + SplitTags(b)
    decreases |a|
  {
    if |a| > 0 {
      assert (a + b)[0] == a[0];
      assert (a + b)[1..] == a[1..] + b;
      SplitTagsFree(a[1..], b);
      assert [a[0]] + a[1..] == a;
    } else {
      assert a + b == b;
    }
  }

  /** Text without a line break passes the second substitution unchanged. */
  lemma {:induction false} JoinNotADisFree(a: string, b: string)
    requires '\n' !in a
    ensures JoinNotADis(a + b) == a + JoinNotADis(b)
    decreases |a|
  {
    if |a| > 0 {
      assert (a + b)[0] == a[0];
      assert (a + b)[1..] == a[1..] + b;
      JoinNotADisFree(a[1..], b);
      assert [a[0]] + a[1..] == a;
    } else {
      assert a + b == b;
    }
  }

  /** The first substitution leaves ` is not a Dis` at the start of the
      text in place, and only there: the result starts with it exactly when
      the text does. */
  lemma SplitTagsKeepsNotADis(b: string)
    ensures StartsWith(SplitTags(b), NotADis) <==> StartsWith(b, NotADis)
  {
    SplitTagsAt(b);
    var r := SplitTags(b);
    if StartsWith(b, NotADis) {
      SplitTagsFree(NotADis, b[13..]);
      assert NotADis + b[13..] == b;
    }
    if StartsWith(r, NotADis) {
      forall k | 0 <= k < 13 ensures b[k] == NotADis[k] {
        assert r[k] == NotADis[k];
      }
    }
  }

  /** At `. [xyz]` the first substitution splits, and resumes after the
      tag. */
  lemma SplitAtTag(t: string, b: string)
    requires IsTag(t)
    ensures SplitTags(". " + t + b) == ".\n" + t + SplitTags(b)
  {
    var s := ". " + t + b;
    assert s[2..7] == t && s[7..] == b;
  }

  /** A line break before a tag and ` is not a Dis` becomes a space. */
  lemma JoinAtTag(t: string, b: string)
    requires IsTag(t)
    ensures JoinNotADis("\n" + t + NotADis + b) == " " + t + NotADis + JoinNotADis(b)
  {
    var s := "\n" + t + NotADis + b;
    assert s[1..6] == t && s[6..19] == NotADis && s[1..19] == t + NotADis && s[19..] == b;
  }

  /** A line break before a tag followed by anything else stays. */
  lemma JoinSkipsTag(t: string, b: string)
    requires IsTag(t) && !StartsWith(b, NotADis)
    ensures JoinNotADis("\n" + t + b) == "\n" + t + JoinNotADis(b)
  {
    var s := "\n" + t + b;
    if |s| >= 19 {
      assert s[6..19] == b[..13];
    }
    assert s[1..] == t + b;
    TagNoBreak(t);
    JoinNotADisFree(t, b);
  }

  /** The text after a tag that keeps it on the line has neither a `.`
      nor a line break. */
  lemma NotADisPlain()
    ensures '.' !in NotADis && '\n' !in NotADis
  {
  }

  /** Regrouping the pieces of the texts the next lemmas speak about. */
  lemma Regroup(a: string, t: string, x: string)
    ensures a + ". " + t + x == a + (". " + t + x)
    ensures (a + ".") + ("\n" + t + x) == a + ".\n" + t + x
    ensures (a + ".") + (" " + t + x) == a + ". " + t + x
  {
  }

  /** The first substitution splits `. [xyz]` after text without a `.`. */
  lemma SplitBeforeTag(a: string, t: string, b: string)
    requires '.' !in a
    requires IsTag(t)
    ensures SplitTags(a + (". " + t + b)) == (a + ".") + ("\n" + t + SplitTags(b))
  {
    SplitTagsFree(a, ". " + t + b);
    SplitAtTag(t, b);
    Regroup(a, t, SplitTags(b));
  }

  /** The second substitution keeps a line break before a tag that is not
      followed by ` is not a Dis`. */
  lemma JoinAfterDotSkips(a: string, t: string, rest: string)
    requires '\n' !in a
    requires IsTag(t) && !StartsWith(rest, NotADis)
    ensures JoinNotADis((a + ".") + ("\n" + t + rest)) == (a + ".") + ("\n" + t + JoinNotADis(rest))
  {
    JoinSkipsTag(t, rest);
    JoinNotADisFree(a + ".", "\n" + t + rest);
  }

  /** `. [xyz]` is split onto a new line, unless the tag is followed by
      ` is not a Dis`: the text before the `.` and the rest are formatted
      on their own. */
  lemma FormatTextSplits(a: string, t: string, b: string)
    requires '.' !in a && '\n' !in a
    requires IsTag(t)
    requires !StartsWith(b, NotADis)
    ensures FormatText(a + ". " + t + b) == a + ".\n" + t + FormatText(b)
  {
    Regroup(a, t, b);
    SplitBeforeTag(a, t, b);
    SplitTagsKeepsNotADis(b);
    JoinAfterDotSkips(a, t, SplitTags(b));
    Regroup(a, t, FormatText(b));
  }

  /** The first substitution splits before a tag followed by
      ` is not a Dis` like before any other tag. */
  lemma SplitBeforeNotADis(a: string, t: string, b: string)
    requires '.' !in a
    requires IsTag(t)
    ensures SplitTags(a + (". " + t + (NotADis + b))) == (a + ".") + ("\n" + t + (NotADis + SplitTags(b)))
  {
    SplitBeforeTag(a, t, NotADis + b);
    NotADisPlain();
    SplitTagsFree(NotADis, b);
  }

  /** The second substitution turns the line break before a tag and
      ` is not a Dis` back into a space. */
  lemma JoinAfterDot(a: string, t: string, rest: string)
    requires '\n' !in a
    requires IsTag(t)
    ensures JoinNotADis((a + ".") + ("\n" + t + (NotADis + rest))) == (a + ".") + (" " + t + (NotADis + JoinNotADis(rest)))
  {
    var u := "\n" + t + NotADis + rest;
    JoinAtTag(t, rest);
    assert "\n" + t + (NotADis + rest) == u;
    assert " " + t + (NotADis + JoinNotADis(rest)) == " " + t + NotADis + JoinNotADis(rest);
    JoinNotADisFree(a + ".", u);
  }

  /** `. [xyz] is not a Dis…` stays on one line: the split is undone. */
  lemma FormatTextRejoins(a: string, t: string, b: string)
    requires '.' !in a && '\n' !in a
    requires IsTag(t)
    ensures FormatText(a + ". " + t + NotADis + b) == a + ". " + t + NotADis + FormatText(b)
  {
    Regroup(a, t, NotADis + b);
    assert a + ". " + t + NotADis + b == a + ". " + t + (NotADis + b);
    SplitBeforeNotADis(a, t, b);
    JoinAfterDot(a, t, SplitTags(b));
    Regroup(a, t, NotADis + FormatText(b));
    assert a + ". " + t + (NotADis + FormatText(b)) == a + ". " + t + NotADis + FormatText(b);
  }

  // ---------------------------------------------------------------------
  // Monger and Secret Library links
  // ---------------------------------------------------------------------

  const MongerHost: string := "http://monger.vekn.org/"
  const MongerVamp: string := MongerHost + "showvamp.html?NAME="
  const MongerCard: string := MongerHost + "showcard.html?NAME="
  const SecretHost: string := "http://www.secretlibrary.info/?"
  const SecretCrypt: string := SecretHost + "crypt="
  const SecretLib: string := SecretHost + "lib="

  /** An advanced vampire: asked for as a vampire, with a level. */
  predicate Advanced(card: AbstractCard, isVampire: bool) {
    isVampire && card.level.Some?
  }

  /** The name both sites are given: articles moved to the back, and for an
      advanced vampire ` (Advanced)` removed. */
  function SiteName(card: AbstractCard, isVampire: bool): string {
    var n := MoveArticlesToBack(card.name);
    if Advanced(card, isVampire) then Replace(n, " (Advanced)", "") else n
  }

  /** The Monger page: the vampire page when asked for a vampire, the card
      page otherwise. */
  function MongerPage(isVampire: bool): string {
    if isVampire then MongerVamp else MongerCard
  }

  /** What follows the name in a Monger link: ` ADV` for an advanced
      vampire. */
  function MongerSuffix(card: AbstractCard, isVampire: bool): string {
    if Advanced(card, isVampire) then " ADV" else ""
  }

  /** The Monger link before its spaces are escaped. */
  function MongerPlain(card: AbstractCard, isVampire: bool): string {
    MongerPage(isVampire) + SiteName(card, isVampire) + MongerSuffix(card, isVampire)
  }

  /** `monger_url`: every space written `%20`. */
  function MongerUrl(card: AbstractCard, isVampire: bool): string {
    Replace(MongerPlain(card, isVampire), " ", "%20")
  }

  /** The Secret Library query: `crypt=` for a vampire, `lib=` otherwise. */
  function SecretPage(isVampire: bool): string {
    if isVampire then SecretCrypt else SecretLib
  }

  /** What follows the name in a Secret Library link: `+Adv` for an
      advanced vampire. */
  function SecretSuffix(card: AbstractCard, isVampire: bool): string {
    if Advanced(card, isVampire) then "+Adv" else ""
  }

  /** The Secret Library link before its spaces and quotes are dealt
      with. */
  function SecretPlain(card: AbstractCard, isVampire: bool): string {
    SecretPage(isVampire) + SiteName(card, isVampire) + SecretSuffix(card, isVampire)
  }

  /** `secret_library_url`: spaces become `+`, double quotes are dropped. */
  function SecretLibraryUrl(card: AbstractCard, isVampire: bool): string {
    Replace(Replace(SecretPlain(card, isVampire), " ", "+"), "\"", "")
  }

  lemma MongerHostPlain()
    ensures ' ' !in MongerHost && '%' !in MongerHost && |MongerHost| == 23
  {
  }

  /** The fixed parts of the Monger links: no space and no `%`, and the two
      pages differ at position 27 (`showvamp` and `showcard`). */
  lemma MongerPagesPlain(isVampire: bool)
    ensures ' ' !in MongerPage(isVampire) && '%' !in MongerPage(isVampire)
    ensures |MongerVamp| == 42 && |MongerCard| == 42 && MongerVamp[27] != MongerCard[27]
  {
    MongerHostPlain();
  }

  lemma SecretHostPlain()
    ensures ' ' !in SecretHost && '"' !in SecretHost && |SecretHost| == 31
  {
  }

  /** The fixed parts of the Secret Library links: no space and no `"`, and
      the two queries differ at position 31 (`crypt` and `lib`). */
  lemma SecretPagesPlain(isVampire: bool)
    ensures ' ' !in SecretPage(isVampire) && '"' !in SecretPage(isVampire)
    ensures |SecretCrypt| == 37 && |SecretLib| == 35 && SecretCrypt[31] != SecretLib[31]
  {
    SecretHostPlain();
  }

  /** Text that starts with `p` does not start with a `q` that differs from
      `p` at a position both have. */
  lemma PrefixExcludes(r: string, p: string, q: string, k: nat)
    requires StartsWith(r, p) && k < |p| && k < |q| && p[k] != q[k]
    ensures !StartsWith(r, q)
  {
    assert r[..|p|][k] == r[k];
  }

  /** Moving the articles adds no character other than those of `, The`,
      `, An` and `, A`. */
  lemma MoveArticlesKeepsOut(name: string, x: char)
    requires x !in name && x !in ", The" && x !in ", An"
    ensures x !in MoveArticlesToBack(name)
  {
    if StartsWith(name, "The ") {
      assert forall c :: c in name[4..] ==> c in name;
    } else if StartsWith(name, "An ") {
      assert forall c :: c in name[3..] ==> c in name;
    } else if StartsWith(name, "A ") {
      assert forall c :: c in name[2..] ==> c in name;
    }
  }

  /** Escaping spaces as `%20` is undone by reading `%20` back as a space,
      as long as the text had no `%` of its own. */
  lemma {:induction false} EscapeSpacesBack(s: string)
    requires '%' !in s
    ensures Replace(Replace(s, " ", "%20"), "%20", " ") == s
  {
    if |s| > 0 {
      EscapeSpacesBack(s[1..]);
      var e := Replace(s[1..], " ", "%20");
      assert s[..1] == [s[0]];
      if s[0] == ' ' {
        assert Replace(s, " ", "%20") == "%20" + e;
        ReplaceAtStart("%20", e, " ");
      } else {
        assert Replace(s, " ", "%20") == [s[0]] + e;
        ReplaceSkipFirst([s[0]] + e, "%20", " ");
        assert ([s[0]] + e)[1..] == e;
      }
      assert [s[0]] + s[1..] == s;
    }
  }

  /** Which characters `s.replace(c, d)` holds, for single characters. */
  lemma ReplaceCharChars(s: string, c: char, d: char)
    ensures forall x :: x in Replace(s, [c], [d]) <==> (x in s && x != c) || (x == d && c in s)
  {
    ReplaceCharAt(s, c, d);
    var r := Replace(s, [c], [d]);
    forall x ensures x in r <==> (x in s && x != c) || (x == d && c in s) {
      if x in r {
        var i :| 0 <= i < |r| && r[i] == x;
        assert s[i] in s;
      }
      if x in s && x != c {
        var i :| 0 <= i < |s| && s[i] == x;
        assert r[i] == x;
      }
      if x == d && c in s {
        var i :| 0 <= i < |s| && s[i] == c;
        assert r[i] == d;
      }
    }
  }

  /** Deleting text adds no character. */
  lemma {:induction false} ReplaceDropsNothing(s: string, p: string, x: char)
    requires |p| > 0 && x !in s
    ensures x !in Replace(s, p, "")
    decreases |s|
  {
    if |s| >= |p| {
      if s[..|p|] == p {
        ReplaceDropsNothing(s[|p|..], p, x);
      } else {
        ReplaceDropsNothing(s[1..], p, x);
      }
    }
  }

  /** A card name without `%` gives a site name without `%`. */
  lemma SiteNameKeepsOut(card: AbstractCard, isVampire: bool)
    requires '%' !in card.name
    ensures '%' !in SiteName(card, isVampire)
  {
    MoveArticlesKeepsOut(card.name, '%');
    if Advanced(card, isVampire) {
      ReplaceDropsNothing(MoveArticlesToBack(card.name), " (Advanced)", '%');
    }
  }

  /** A Monger link: no spaces; the vampire page exactly for vampires; an
      advanced vampire's link ends in ` ADV` escaped; and with the `%20`
      read back as spaces it is the page, the site name and the suffix, as
      long as the card's name has no `%`. */
  lemma MongerUrlShape(card: AbstractCard, isVampire: bool)
    ensures ' ' !in MongerUrl(card, isVampire)
    ensures StartsWith(MongerUrl(card, isVampire), MongerVamp) <==> isVampire
    ensures Advanced(card, isVampire) ==> EndsWith(MongerUrl(card, isVampire), "%20ADV")
    ensures '%' !in card.name ==>
      Replace(MongerUrl(card, isVampire), "%20", " ") ==
        MongerPage(isVampire) + SiteName(card, isVampire) + MongerSuffix(card, isVampire)
  {
    var pre := MongerPage(isVampire);
    var n := SiteName(card, isVampire);
    var suf := MongerSuffix(card, isVampire);
    var plain := MongerPlain(card, isVampire);
    var r := MongerUrl(card, isVampire);
    ReplaceCharGone(plain, ' ', "%20");
    MongerPagesPlain(isVampire);
    assert plain == pre + (n + suf);
    ReplaceFreePrefix(pre, n + suf, " ", "%20");
    assert StartsWith(r, pre);
    if !isVampire {
      PrefixExcludes(r, MongerCard, MongerVamp, 27);
    }
    if Advanced(card, isVampire) {
      assert plain == (pre + n) + " ADV";
      ReplaceCharConcat(pre + n, " ADV", ' ', "%20");
      assert Replace(" ADV", " ", "%20") == "%20ADV";
    }
    if '%' !in card.name {
      SiteNameKeepsOut(card, isVampire);
      assert '%' !in plain;
      EscapeSpacesBack(plain);
    }
  }

  /** A Secret Library link: no spaces and no double quotes; the crypt form
      exactly for vampires and the library form otherwise; an advanced
      vampire's link ends in `+Adv`. */
  lemma SecretLibraryUrlShape(card: AbstractCard, isVampire: bool)
    ensures ' ' !in SecretLibraryUrl(card, isVampire)
    ensures '"' !in SecretLibraryUrl(card, isVampire)
    ensures StartsWith(SecretLibraryUrl(card, isVampire), SecretCrypt) <==> isVampire
    ensures StartsWith(SecretLibraryUrl(card, isVampire), SecretLib) <==> !isVampire
    ensures Advanced(card, isVampire) ==> EndsWith(SecretLibraryUrl(card, isVampire), "+Adv")
  {
    var pre := SecretPage(isVampire);
    var n := SiteName(card, isVampire);
    var suf := SecretSuffix(card, isVampire);
    var u := SecretPlain(card, isVampire);
    var v := Replace(u, " ", "+");
    var r := Replace(v, "\"", "");
    SecretLibraryUrlChars(card, isVampire);
    SecretPagesPlain(isVampire);
    assert u == pre + (n + suf);
    ReplaceFreePrefix(pre, n + suf, " ", "+");
    ReplaceFreePrefix(pre, Replace(n + suf, " ", "+"), "\"", "");
    assert StartsWith(r, pre);
    if isVampire {
      PrefixExcludes(r, SecretCrypt, SecretLib, 31);
    } else {
      PrefixExcludes(r, SecretLib, SecretCrypt, 31);
    }
    if Advanced(card, isVampire) {
      assert u == (pre + n) + "+Adv";
      ReplaceCharConcat(pre + n, "+Adv", ' ', "+");
      ReplaceAbsent("+Adv", " ", "+");
      ReplaceCharConcat(Replace(pre + n, " ", "+"), "+Adv", '"', "");
      ReplaceAbsent("+Adv", "\"", "");
    }
  }

  /** The characters of a Secret Library link: those of the unescaped link
      other than spaces and double quotes, and `+` where there was a
      space. */
  lemma SecretLibraryUrlChars(card: AbstractCard, isVampire: bool)
    ensures forall x :: x in SecretLibraryUrl(card, isVampire) <==>
      ((x in SecretPlain(card, isVampire) && x != ' ') ||
       (x == '+' && ' ' in SecretPlain(card, isVampire))) && x != '"'
  {
    var u := SecretPlain(card, isVampire);
    var v := Replace(u, " ", "+");
    ReplaceCharChars(u, ' ', '+');
    ReplaceDeletes(v, '"');
    WithoutChars(v, "\"");
  }
}
