/** String helpers shared across the application (sutekh/generic/Utility.py):
    quote escaping for the SQL layer, file-name sanitising, XML quote
    normalisation and moving a leading article to the end of a card name
    and back. */
module Utility {
  import opened PyStr

  // ---------------------------------------------------------------------
  // escape_quotes / unescape_quotes
  // ---------------------------------------------------------------------

  /** `escape_quotes`: double every backslash, then escape `'`, then `"`. */
  function EscapeQuotes(s: string): string {
    Replace(Replace(Replace(s, "\\", "\\\\"), "'", "\\'"), "\"", "\\\"")
  }

  /** `unescape_quotes`: undo `\'`, then `\"`, then collapse `\\`. */
  function UnescapeQuotes(s: string): string {
    Replace(Replace(Replace(s, "\\'", "'"), "\\\"", "\""), "\\\\", "\\")
  }

  /** Reference definition of the escaping: each backslash written twice,
      each quote character preceded by a backslash, every other character
      kept. */
  function Escaped(s: string): string {
    if |s| == 0 then ""
    else
      (if s[0] == '\\' then "\\\\"
       else if s[0] == '\'' then "\\'"
       else if s[0] == '"' then "\\\""
       else [s[0]]) + Escaped(s[1..])
  }

  /** The text after the first step of unescaping: `'` restored, `\` and `"`
      still escaped. */
  function EscapedNoSingle(s: string): string {
    if |s| == 0 then ""
    else
      (if s[0] == '\\' then "\\\\"
       else if s[0] == '"' then "\\\""
       else [s[0]]) + EscapedNoSingle(s[1..])
  }

  /** The text after the second step of unescaping: only `\` still doubled. */
  function Doubled(s: string): string {
    if |s| == 0 then ""
    else (if s[0] == '\\' then "\\\\" else [s[0]]) + Doubled(s[1..])
  }

  lemma EscapeQuotesOneChar(c: char)
    ensures EscapeQuotes([c]) == Escaped([c])
  {
    assert [c][1..] == [];
    ReplaceCharAt([c], '\\', '\\');
    if c == '\\' {
      assert Replace([c], "\\", "\\\\") == "\\\\" + Replace([], "\\", "\\\\");
      ReplaceAbsent("\\\\", "'", "\\'");
      ReplaceAbsent("\\\\", "\"", "\\\"");
    } else {
      assert Replace([c], "\\", "\\\\") == [c] + Replace([], "\\", "\\\\");
      if c == '\'' {
        assert Replace([c], "'", "\\'") == "\\'" + Replace([], "'", "\\'");
        ReplaceAbsent("\\'", "\"", "\\\"");
      } else {
        assert Replace([c], "'", "\\'") == [c] + Replace([], "'", "\\'");
        if c == '"' {
          assert Replace([c], "\"", "\\\"") == "\\\"" + Replace([], "\"", "\\\"");
        } else {
          assert Replace([c], "\"", "\\\"") == [c] + Replace([], "\"", "\\\"");
        }
      }
    }
  }

  /** `escape_quotes` doubles every backslash and puts a backslash before
      every `'` and `"`: it agrees with the reference definition. */
  lemma {:induction false} EscapeQuotesIsEscaped(s: string)
    ensures EscapeQuotes(s) == Escaped(s)
  {
    if |s| > 0 {
      var c, t := s[0], s[1..];
      assert s == [c] + t;
      EscapeQuotesIsEscaped(t);
      EscapeQuotesOneChar(c);
      var a1, b1 := Replace([c], "\\", "\\\\"), Replace(t, "\\", "\\\\");
      ReplaceCharConcat([c], t, '\\', "\\\\");
      var a2, b2 := Replace(a1, "'", "\\'"), Replace(b1, "'", "\\'");
      ReplaceCharConcat(a1, b1, '\'', "\\'");
      ReplaceCharConcat(a2, b2, '"', "\\\"");
      assert EscapeQuotes(s) == EscapeQuotes([c]) + EscapeQuotes(t);
      assert Escaped(s) == Escaped([c]) + Escaped(t);
    }
  }

  /** In escaped text a `'` is never the first character: it always follows
      its escaping backslash. */
  lemma EscapedHead(s: string)
    ensures |Escaped(s)| > 0 ==> Escaped(s)[0] != '\''
    ensures |EscapedNoSingle(s)| > 0 ==> EscapedNoSingle(s)[0] != '"'
  {
  }

  /** Undoing `\'` in fully escaped text leaves `\` and `"` escaped. */
  lemma {:induction false} UnescapeSingle(s: string)
    ensures Replace(Escaped(s), "\\'", "'") == EscapedNoSingle(s)
  {
    if |s| > 0 {
      var c, t := s[0], s[1..];
      var e := Escaped(t);
      UnescapeSingle(t);
      EscapedHead(t);
      var p, r := "\\'", "'";
      if c == '\\' {
        var x := "\\\\" + e;
        assert Escaped(s) == x;
        ReplaceSkipFirst2(x, p, r);
        assert x[1..] == "\\" + e;
        ReplaceSkipFirst2("\\" + e, p, r);
        assert ("\\" + e)[1..] == e;
      } else if c == '\'' {
        assert Escaped(s) == p + e;
        ReplaceAtStart(p, e, r);
      } else if c == '"' {
        var x := "\\\"" + e;
        assert Escaped(s) == x;
        ReplaceSkipFirst2(x, p, r);
        assert x[1..] == "\"" + e;
        ReplaceSkipFirst("\"" + e, p, r);
        assert ("\"" + e)[1..] == e;
      } else {
        assert Escaped(s) == [c] + e;
        ReplaceSkipFirst([c] + e, p, r);
        assert ([c] + e)[1..] == e;
      }
    }
  }

  /** Two characters neither of which can be the second character of a
      two-character pattern pass through a replace, when the text after
      them does not start with that character either. */
  lemma ReplaceKeepsPair(x: char, y: char, e: string, p: string, r: string)
    requires |p| == 2 && y != p[1] && (|e| > 0 ==> e[0] != p[1])
    ensures Replace([x, y] + e, p, r) == [x, y] + Replace(e, p, r)
  {
    var t := [y] + e;
    var s := [x] + t;
    assert s == [x, y] + e;
    assert s[1..] == t && t[1..] == e;
    ReplaceSkipFirst2(s, p, r);
    ReplaceSkipFirst2(t, p, r);
    assert [x] + ([y] + Replace(e, p, r)) == [x, y] + Replace(e, p, r);
  }

  /** Undoing `\"` next leaves only the doubled backslashes. */
  lemma {:induction false} UnescapeDouble(s: string)
    ensures Replace(EscapedNoSingle(s), "\\\"", "\"") == Doubled(s)
  {
    if |s| > 0 {
      var c, t := s[0], s[1..];
      var e := EscapedNoSingle(t);
      UnescapeDouble(t);
      EscapedHead(t);
      var p, r := "\\\"", "\"";
      if c == '\\' {
        assert EscapedNoSingle(s) == ['\\', '\\'] + e;
        ReplaceKeepsPair('\\', '\\', e, p, r);
      } else if c == '"' {
        assert EscapedNoSingle(s) == p + e;
        ReplaceAtStart(p, e, r);
      } else {
        assert EscapedNoSingle(s) == [c] + e;
        ReplaceSkipFirst([c] + e, p, r);
        assert ([c] + e)[1..] == e;
      }
    }
  }

  /** Collapsing `\\` undoes the doubling. */
  lemma {:induction false} UndoDoubled(s: string)
    ensures Replace(Doubled(s), "\\\\", "\\") == s
  {
    if |s| > 0 {
      var c, t := s[0], s[1..];
      var e := Doubled(t);
      UndoDoubled(t);
      if c == '\\' {
        assert Doubled(s) == "\\\\" + e;
        ReplaceAtStart("\\\\", e, "\\");
      } else {
        assert Doubled(s) == [c] + e;
        ReplaceSkipFirst([c] + e, "\\\\", "\\");
        assert ([c] + e)[1..] == e;
      }
      assert s == [c] + t;
    }
  }

  /** `unescape_quotes(escape_quotes(s)) == s` for every string. */
  lemma EscapeRoundTrip(s: string)
    ensures UnescapeQuotes(EscapeQuotes(s)) == s
  {
    EscapeQuotesIsEscaped(s);
    UnescapeSingle(s);
    UnescapeDouble(s);
    UndoDoubled(s);
  }

  // ---------------------------------------------------------------------
  // safe_filename
  // ---------------------------------------------------------------------

  /** The characters `safe_filename` replaces. */
  predicate Unsafe(c: char) {
    c == ' ' || c == '/' || c == '\\'
  }

  /** `safe_filename`: spaces, then `/`, then `\` replaced by `_`. */
  function SafeFilename(name: string): string {
    Replace(Replace(Replace(name, " ", "_"), "/", "_"), "\\", "_")
  }

  /** `safe_filename` keeps the length, turns exactly the unsafe characters
      into `_` and keeps every other character in place. */
  lemma SafeFilenameChars(name: string)
    ensures |SafeFilename(name)| == |name|
    ensures forall i :: 0 <= i < |name| ==>
      SafeFilename(name)[i] == if Unsafe(name[i]) then '_' else name[i]
  {
    var s1 := Replace(name, " ", "_");
    ReplaceCharAt(name, ' ', '_');
    var s2 := Replace(s1, "/", "_");
    ReplaceCharAt(s1, '/', '_');
    ReplaceCharAt(s2, '\\', '_');
  }

  /** A name made safe contains no space, `/` or `\`. */
  lemma SafeFilenameIsSafe(name: string)
    ensures forall i :: 0 <= i < |SafeFilename(name)| ==> !Unsafe(SafeFilename(name)[i])
  {
    SafeFilenameChars(name);
  }

  // ---------------------------------------------------------------------
  // norm_xml_quotes
  // ---------------------------------------------------------------------

  /** `norm_xml_quotes`: every `&apos;` becomes `'`. */
  function NormXmlQuotes(s: string): string {
    Replace(s, "&apos;", "'")
  }

  /** Text without an `&` is left untouched. */
  lemma NormXmlQuotesPlain(s: string)
    requires '&' !in s
    ensures NormXmlQuotes(s) == s
  {
    ReplaceAbsent(s, "&apos;", "'");
  }

  /** The first `&apos;` is turned into `'`, the text before it is kept,
      and the rest is normalised in turn. */
  lemma NormXmlQuotesEntity(a: string, b: string)
    requires '&' !in a
    ensures NormXmlQuotes(a + "&apos;" + b) == a + "'" + NormXmlQuotes(b)
  {
    var p := "&apos;";
    assert a + p + b == a + (p + b);
    ReplaceFreePrefix(a, p + b, p, "'");
    ReplaceAtStart(p, b, "'");
  }

  // ---------------------------------------------------------------------
  // move_articles_to_back / move_articles_to_front
  // ---------------------------------------------------------------------

  /** `move_articles_to_back`: `The X` becomes `X, The`, `An X` becomes
      `X, An`, `A X` becomes `X, A`; other names are unchanged. */
  function MoveArticlesToBack(name: string): string {
    if StartsWith(name, "The ") then name[4..] + ", The"
    else if StartsWith(name, "An ") then name[3..] + ", An"
    else if StartsWith(name, "A ") then name[2..] + ", A"
    else name
  }

  /** `move_articles_to_front`: the suffix test is done on the lower-cased
      name, the slice on the name as given. */
  function MoveArticlesToFront(name: string): string {
    var l := Lower(name);
    if EndsWith(l, ", the") then "The " + name[..|name| - 5]
    else if EndsWith(l, ", an") then "An " + name[..|name| - 4]
    else if EndsWith(l, ", a") then "A " + name[..|name| - 3]
    else name
  }

  /** A name that begins with one of the three articles survives moving the
      article to the back and then to the front again. */
  lemma ArticlesRoundTrip(name: string)
    requires StartsWith(name, "The ") || StartsWith(name, "An ") || StartsWith(name, "A ")
    ensures MoveArticlesToFront(MoveArticlesToBack(name)) == name
  {
    if StartsWith(name, "The ") {
      assert name == "The " + name[4..];
      RoundTripThe(name[4..]);
    } else if StartsWith(name, "An ") {
      assert name == "An " + name[3..];
      RoundTripAn(name[3..]);
    } else {
      assert name == "A " + name[2..];
      RoundTripA(name[2..]);
    }
  }

  lemma RoundTripThe(x: string)
    ensures MoveArticlesToFront(x + ", The") == "The " + x
  {
    var b := x + ", The";
    LowerConcat(x, ", The");
    var l := Lower(b);
    assert l[|l| - 5..] == Lower(", The");
    assert Lower(", The") == ", the";
    assert b[..|b| - 5] == x;
  }

  lemma RoundTripAn(x: string)
    ensures MoveArticlesToFront(x + ", An") == "An " + x
  {
    var b := x + ", An";
    LowerConcat(x, ", An");
    var l := Lower(b);
    assert l[|l| - 4..] == Lower(", An");
    assert Lower(", An") == ", an";
    assert l[|l| - 1] == 'n';
    assert !EndsWith(l, ", the");
    assert b[..|b| - 4] == x;
  }

  lemma RoundTripA(x: string)
    ensures MoveArticlesToFront(x + ", A") == "A " + x
  {
    var b := x + ", A";
    LowerConcat(x, ", A");
    var l := Lower(b);
    assert l[|l| - 3..] == Lower(", A");
    assert Lower(", A") == ", a";
    assert l[|l| - 1] == 'a';
    assert !EndsWith(l, ", the") && !EndsWith(l, ", an");
    assert b[..|b| - 3] == x;
  }

  /** `move_articles_to_front` recognises the suffix in any letter case:
      `X, the`, `X, THE` and `X, The` all become `The X`. */
  lemma ArticleSuffixAnyCase(x: string, suffix: string)
    requires Lower(suffix) == ", the"
    ensures MoveArticlesToFront(x + suffix) == "The " + x
  {
    var n := x + suffix;
    LowerConcat(x, suffix);
    assert Lower(n)[|Lower(n)| - 5..] == Lower(suffix);
    assert n[..|n| - 5] == x;
  }
}
