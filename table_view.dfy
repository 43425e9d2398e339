/** The column-header text of the table views: a snake_case column name
    turned into capitalised words separated by spaces. */
module TableView {
  import opened Common

  /** Java's `String.split` with a one-character pattern: the segments
      between occurrences of `c`, with trailing empty segments dropped; a
      string without `c` (the empty string included) is its own only
      segment. */
  function JavaSplit(s: string, c: char): (r: seq<string>)
    ensures forall k :: 0 <= k < |r| ==> c !in r[k]
  {
    SplitAvoids(s, c);
    if c !in s then [s] else DropTrailingEmpty(Split(s, c))
  }

  /** The prefix left once every empty segment at the end is removed. */
  function DropTrailingEmpty(parts: seq<string>): (r: seq<string>)
    ensures |r| <= |parts| && r == parts[..|r|]
    ensures r == [] || r[|r| - 1] != ""
    ensures forall k :: |r| <= k < |parts| ==> parts[k] == ""
  {
    if parts == [] then []
    else if parts[|parts| - 1] == "" then DropTrailingEmpty(parts[..|parts| - 1])
    else parts
  }

  /** No segment of a split holds the separator. */
  lemma {:induction false} SplitAvoids(s: string, c: char)
    ensures forall k :: 0 <= k < |Split(s, c)| ==> c !in Split(s, c)[k]
  {
    if |s| > 0 {
      SplitAvoids(s[1..], c);
    }
  }

  /** `word.substring(0, 1).toUpperCase() + word.substring(1).toLowerCase()`. */
  function Capitalize(w: string): (r: string)
    requires |w| > 0
    ensures |r| == |w|
    ensures r[0] == ToUpperChar(w[0]) && forall k :: 1 <= k < |w| ==> r[k] == ToLowerChar(w[k])
  {
    ToUpper(w[..1]) + ToLower(w[1..])
  }

  /** Every segment is non-empty, else `substring(0, 1)` throws. */
  predicate SegmentsNonEmpty(parts: seq<string>)
  {
    forall k :: 0 <= k < |parts| ==> |parts[k]| > 0
  }

  function CapitalizeAll(parts: seq<string>): (r: seq<string>)
    requires SegmentsNonEmpty(parts)
    ensures |r| == |parts| && forall k :: 0 <= k < |parts| ==> r[k] == Capitalize(parts[k])
  {
    if parts == [] then [] else [Capitalize(parts[0])] + CapitalizeAll(parts[1..])
  }

  /** `formatColumnName`: split at '_', capitalise every segment and join the
      words with single spaces; with no segment at all (a name made only of
      '_') the name itself. */
  function FormatColumnName(original: string): (r: string)
    requires SegmentsNonEmpty(JavaSplit(original, '_'))
    ensures JavaSplit(original, '_') == [] ==> r == original
    ensures JavaSplit(original, '_') != [] ==> '_' !in r
  {
    var parts := JavaSplit(original, '_');
    var words := CapitalizeAll(parts);
    if words == [] then original
    else
      WordsAvoid(parts, '_');
      JoinAvoids(words, " ", '_');
      Join(words, " ")
  }

  /** A character that is no letter and in no segment is in no word. */
  lemma WordsAvoid(parts: seq<string>, ch: char)
    requires SegmentsNonEmpty(parts) && !IsAsciiLetter(ch)
    requires forall k :: 0 <= k < |parts| ==> ch !in parts[k]
    ensures forall k :: 0 <= k < |parts| ==> ch !in CapitalizeAll(parts)[k]
  {
    forall k | 0 <= k < |parts| ensures ch !in CapitalizeAll(parts)[k] {
      CapitalizeKeeps(parts[k], ch);
    }
  }

  // ---------------------------------------------------------------------
  // Properties

  /** Case conversion keeps every character that is not a letter, so no
      '_' and no ' ' appears in a capitalised word that its segment lacks. */
  lemma CapitalizeKeeps(w: string, ch: char)
    requires |w| > 0 && !IsAsciiLetter(ch)
    ensures ch in Capitalize(w) <==> ch in w
  {
    var r := Capitalize(w);
    if ch in r {
      var k :| 0 <= k < |r| && r[k] == ch;
      assert w[k] == ch;
    }
    if ch in w {
      var k :| 0 <= k < |w| && w[k] == ch;
      assert r[k] == ch;
    }
  }

  /** The header is the capitalised segments joined by single spaces. */
  lemma FormatIsJoinedWords(original: string)
    requires SegmentsNonEmpty(JavaSplit(original, '_'))
    requires JavaSplit(original, '_') != []
    ensures FormatColumnName(original) == Join(CapitalizeAll(JavaSplit(original, '_')), " ")
  {
  }

  /** When no segment holds a space, splitting the header at spaces gives
      back one word per segment, in order. */
  lemma WordPerSegment(original: string)
    requires SegmentsNonEmpty(JavaSplit(original, '_'))
    requires JavaSplit(original, '_') != []
    requires ' ' !in original
    ensures var parts := JavaSplit(original, '_');
      Split(FormatColumnName(original), ' ') == CapitalizeAll(parts)
  {
    var parts := JavaSplit(original, '_');
    var words := CapitalizeAll(parts);
    forall k | 0 <= k < |words| ensures ' ' !in words[k] {
      SegmentNotSpaced(original, k);
      CapitalizeKeeps(parts[k], ' ');
    }
    SplitJoin(words, ' ');
  }

  lemma SegmentNotSpaced(original: string, k: nat)
    requires ' ' !in original && k < |JavaSplit(original, '_')|
    ensures ' ' !in JavaSplit(original, '_')[k]
  {
    if '_' in original {
      SplitInside(original, '_', ' ');
    }
  }

  /** A character absent from a string is absent from its segments. */
  lemma {:induction false} SplitInside(s: string, c: char, ch: char)
    requires ch !in s
    ensures forall k :: 0 <= k < |Split(s, c)| ==> ch !in Split(s, c)[k]
  {
    if |s| > 0 {
      SplitInside(s[1..], c, ch);
    }
  }

  /** A name without '_' becomes one capitalised word. */
  lemma SingleWord(original: string)
    requires '_' !in original && |original| > 0
    ensures SegmentsNonEmpty(JavaSplit(original, '_'))
    ensures FormatColumnName(original) == Capitalize(original)
  {
  }

  /** Splitting a join of non-empty, '_'-free segments gives them back, so
      the header of such a name has one word per segment. */
  lemma JavaSplitJoin(parts: seq<string>)
    requires |parts| > 0 && SegmentsNonEmpty(parts)
    requires forall k :: 0 <= k < |parts| ==> '_' !in parts[k]
    ensures JavaSplit(Join(parts, "_"), '_') == parts
  {
    SplitJoin(parts, '_');
    if '_' !in Join(parts, "_") {
      SplitWithout(Join(parts, "_"), '_');
    }
    assert parts[|parts| - 1] != "";
  }

  lemma TotalPriceSegments()
    ensures JavaSplit("total_price", '_') == ["total", "price"]
  {
    assert "total_price" == Join(["total", "price"], "_");
    JavaSplitJoin(["total", "price"]);
  }

  lemma CapitalizeTotalPrice()
    ensures Capitalize("total") == "Total" && Capitalize("price") == "Price"
  {
    assert ToUpperChar('t') == 'T' && ToUpperChar('p') == 'P';
  }

  lemma CapitalizeQuantity()
    ensures Capitalize("quantity") == "Quantity"
  {
    assert ToUpperChar('q') == 'Q';
  }

  /** `total_price` is shown as `Total Price`. */
  lemma FormatTotalPrice()
    ensures SegmentsNonEmpty(JavaSplit("total_price", '_'))
    ensures FormatColumnName("total_price") == "Total Price"
  {
    TotalPriceSegments();
    FormatTwoWords("total_price", "total", "price");
    CapitalizeTotalPrice();
    TotalPriceText();
  }

  lemma TotalPriceText()
    ensures "Total" + " " + "Price" == "Total Price"
  {
  }

  /** A name of two segments is shown as their capitalised words around
      one space. */
  lemma FormatTwoWords(original: string, a: string, b: string)
    requires JavaSplit(original, '_') == [a, b] && |a| > 0 && |b| > 0
    ensures SegmentsNonEmpty(JavaSplit(original, '_'))
    ensures FormatColumnName(original) == Capitalize(a) + " " + Capitalize(b)
  {
    var words := CapitalizeAll([a, b]);
    assert words == [Capitalize(a), Capitalize(b)];
    assert words[1..] == [Capitalize(b)];
    assert Join(words[1..], " ") == Capitalize(b);
    assert Join(words, " ") == words[0] + " " + Join(words[1..], " ");
  }

  /** `quantity` is shown as `Quantity`. */
  lemma FormatQuantity()
    ensures SegmentsNonEmpty(JavaSplit("quantity", '_'))
    ensures FormatColumnName("quantity") == "Quantity"
  {
    SingleWord("quantity");
    CapitalizeQuantity();
  }

  /** A name made only of '_' has no segment and is shown unchanged. */
  lemma FormatOnlyUnderscore()
    ensures JavaSplit("_", '_') == [] && FormatColumnName("_") == "_"
  {
    assert Split("_", '_') == ["", ""];
  }

  /** A leading '_' leaves an empty first segment, which the source cannot
      capitalise. */
  lemma LeadingUnderscoreUnformattable()
    ensures !SegmentsNonEmpty(JavaSplit("_id", '_'))
  {
    var s := "_id";
    SplitWithout(s[1..], '_');
    assert Split(s, '_') == [""] + Split(s[1..], '_');
    assert Split(s, '_') == ["", "id"];
    assert JavaSplit(s, '_') == ["", "id"];
    assert |JavaSplit(s, '_')[0]| == 0;
  }

  /** The empty name is its own only segment, which is empty. */
  lemma EmptyNameUnformattable()
    ensures !SegmentsNonEmpty(JavaSplit("", '_'))
  {
    assert '_' !in "";
    assert JavaSplit("", '_') == [""];
    assert |JavaSplit("", '_')[0]| == 0;
  }
}
