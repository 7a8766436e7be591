/** The name normalisation of the workbook loader (seo_app/excel_loader.py):
    sheet names are lowercased and column headers are stripped, lowercased
    and have their spaces replaced by underscores. Reading the workbook file
    and its cells is outside the model; a sheet is its name and header row. */
module ExcelLoader {
  import opened Text

  /** `c.strip().lower().replace(" ", "_")`. */
  function NormalizeHeader(c: string): (r: string)
    ensures |r| <= |c|
    ensures forall k :: 0 <= k < |r| ==> r[k] != ' ' && !IsUpper(r[k])
    ensures r == [] || (!IsSpace(r[0]) && !IsSpace(r[|r| - 1]))
    // character by character: the stripped label, lowercased, blanks to `_`
    ensures |r| == |Strip(c)|
    ensures forall k :: 0 <= k < |r| ==>
      r[k] == (if Strip(c)[k] == ' ' then '_' else LowerChar(Strip(c)[k]))
  {
    LowerUnderscore(Strip(c))
  }

  /** Lowercase a label and turn its spaces into `_`. */
  function LowerUnderscore(s: string): (r: string)
    ensures |r| == |s|
    ensures forall k :: 0 <= k < |r| ==> r[k] == (if s[k] == ' ' then '_' else LowerChar(s[k]))
    ensures forall k :: 0 <= k < |r| ==> r[k] != ' ' && !IsUpper(r[k])
    ensures forall k :: 0 <= k < |r| ==> (IsSpace(r[k]) <==> IsSpace(s[k]) && s[k] != ' ')
  {
    var t := Lower(s);
    var r := SpacesToUnderscores(t);
    assert forall k :: 0 <= k < |r| ==> t[k] == LowerChar(s[k]);
    r
  }

  /** Normalising a normalised header changes nothing. */
  lemma NormalizeIdempotent(c: string)
    ensures NormalizeHeader(NormalizeHeader(c)) == NormalizeHeader(c)
  {
    var n := NormalizeHeader(c);
    assert Strip(n) == n;
    assert NoUpper(n);
    LowerFacts(n);
  }

  /** A header without surrounding whitespace, capitals or spaces is kept as
      it is. */
  lemma CleanHeaderUnchanged(c: string)
    requires c == [] || (!IsSpace(c[0]) && !IsSpace(c[|c| - 1]))
    requires forall k :: 0 <= k < |c| ==> c[k] != ' ' && !IsUpper(c[k])
    ensures NormalizeHeader(c) == c
  {
    assert NoUpper(c);
    LowerFacts(c);
  }

  /** A typical crawler header becomes a snake-case column name. */
  lemma TitleLengthHeader(c: string)
    requires c == " Title 1 Length "
    ensures NormalizeHeader(c) == "title_1_length"
  {
    var inner := "Title 1 Length";
    assert c == " " + inner + " ";
    StripSurroundingSpace(inner);
    LowerTitle(inner);
    UnderscoreTitle("title 1 length");
  }

  lemma LowerTitle(s: string)
    requires s == "Title 1 Length"
    ensures Lower(s) == "title 1 length"
  {
    assert LowerChar('T') == 't' && LowerChar('L') == 'l';
  }

  lemma UnderscoreTitle(s: string)
    requires s == "title 1 length"
    ensures SpacesToUnderscores(s) == "title_1_length"
  {
  }

  /** One blank on each side of a text with non-blank ends is stripped. */
  lemma StripSurroundingSpace(s: string)
    requires s != [] && !IsSpace(s[0]) && !IsSpace(s[|s| - 1])
    ensures Strip(" " + s + " ") == s
  {
    var t := " " + s + " ";
    assert t[0] == ' ' && t[1] == s[0] && t[|t| - 1] == ' ' && t[|t| - 2] == s[|s| - 1];
    assert SkipSpaces(t, 1) == 1;
    assert SkipSpaces(t, 0) == 1;
    assert SkipSpacesBack(t, 1, |t| - 1) == |t| - 1;
    assert SkipSpacesBack(t, 1, |t|) == |t| - 1;
    assert t[1..|t| - 1] == s;
  }

  /** A sheet as read from the workbook: its name and its header row. */
  datatype RawSheet = RawSheet(name: string, headers: seq<string>)

  function NormalizeHeaders(hs: seq<string>): (r: seq<string>)
    ensures |r| == |hs|
    ensures forall i :: 0 <= i < |hs| ==> r[i] == NormalizeHeader(hs[i])
  {
    seq(|hs|, i requires 0 <= i < |hs| => NormalizeHeader(hs[i]))
  }

  /** No later sheet lowercases to the same name as sheet `i`. */
  predicate LastOfName(book: seq<RawSheet>, i: nat)
    requires i < |book|
  {
    forall j :: i < j < |book| ==> SheetKey(book[j]) != SheetKey(book[i])
  }

  /** The key a sheet is stored under. */
  function SheetKey(sheet: RawSheet): string {
    Lower(sheet.name)
  }

  /** `load_screaming_frog` on names and headers: the sheets keyed by their
      lowercased names, each with its normalised header row. The keys are
      exactly the lowercased sheet names. */
  function LoadHeaders(book: seq<RawSheet>): (r: map<string, seq<string>>)
    ensures forall k :: k in r <==> exists i :: 0 <= i < |book| && SheetKey(book[i]) == k
  {
    if book == [] then map[]
    else
      var n := |book| - 1;
      var init := book[..n];
      assert forall i :: 0 <= i < n ==> init[i] == book[i];
      LoadHeaders(init)[SheetKey(book[n]) := NormalizeHeaders(book[n].headers)]
  }

  /** When names lowercase alike the later sheet overwrites the earlier one:
      a key holds the headers of the last sheet stored under it. */
  lemma {:induction false} LastSheetWins(book: seq<RawSheet>, i: nat)
    requires i < |book| && LastOfName(book, i)
    ensures SheetKey(book[i]) in LoadHeaders(book)
    ensures LoadHeaders(book)[SheetKey(book[i])] == NormalizeHeaders(book[i].headers)
  {
    var n := |book| - 1;
    if i < n {
      var init := book[..n];
      assert init[i] == book[i];
      assert LastOfName(init, i) by {
        forall j | i < j < n ensures SheetKey(init[j]) != SheetKey(init[i]) {
          assert init[j] == book[j];
        }
      }
      LastSheetWins(init, i);
    }
  }

  /** Every key is lowercase. */
  lemma KeysAreLowercase(book: seq<RawSheet>)
    ensures forall k :: k in LoadHeaders(book) ==> NoUpper(k)
  {
    forall k | k in LoadHeaders(book) ensures NoUpper(k) {
      var i :| 0 <= i < |book| && SheetKey(book[i]) == k;
      LowerFacts(book[i].name);
    }
  }

  /** Sheet names that differ only in case collide; the later one is kept. */
  lemma CaseCollision(a: RawSheet, b: RawSheet)
    requires SheetKey(a) == SheetKey(b)
    ensures LoadHeaders([a, b]) == map[SheetKey(b) := NormalizeHeaders(b.headers)]
  {
    assert [a, b][..1] == [a];
    assert [a][..0] == [];
  }
}
