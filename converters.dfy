/**
 * The deterministic part of the Chefkoch extractor and of the file writer:
 * grouping ingredient-table rows into sections, splitting the preparation
 * text into instruction steps, and deriving the output file name from the
 * recipe title. The HTML lookups that produce the inputs are abstracted:
 * the rows arrive as pairs of already stripped cell texts.
 */
module Converters {
  import opened Recipes
  import opened PyStr

  // ---------------------------------------------------------------------
  // Ingredient rows

  /** One table row: the stripped text of its first cell (the amount) and
      of its second cell (the substance). */
  datatype Row = Row(amount: string, substance: string)

  /** A row with an empty amount cell opens a new section. */
  predicate IsHeader(r: Row)
  {
    r.amount == ""
  }

  /** The ingredient a row becomes: the stored amount is the row's amount
      and the stored substance its substance, whatever the argument order. */
  function ToIngredient(r: Row): (x: Ingredient)
    ensures x.amount == r.amount && x.substance == r.substance
  {
    Ingredient(r.substance, r.amount)
  }

  /** The effect of one loop iteration on the section list. */
  function AddRow(secs: seq<SectionView>, r: Row): (out: seq<SectionView>)
    requires !IsHeader(r) ==> |secs| > 0
    ensures |out| == |secs| + (if IsHeader(r) then 1 else 0)
    ensures IsHeader(r) ==> out[|secs|].title == r.substance
  {
    if IsHeader(r) then secs + [SectionView(r.substance, [])]
    else AppendToLast(secs, ToIngredient(r))
  }

  /** The section list after the loop has processed `rows`, starting from
      `secs`. After the first row there is always a section. */
  function Fold(secs: seq<SectionView>, rows: seq<Row>): (r: seq<SectionView>)
    requires |rows| > 0 && !IsHeader(rows[0]) ==> |secs| > 0
    ensures |r| >= |secs|
    ensures |rows| > 0 ==> |r| > 0
    decreases |rows|
  {
    if rows == [] then secs else Fold(AddRow(secs, rows[0]), rows[1..])
  }

  /** One iteration of the loop consumes one row. */
  lemma FoldStep(secs: seq<SectionView>, rows: seq<Row>, i: nat)
    requires i < |rows| && (!IsHeader(rows[i]) ==> |secs| > 0)
    ensures Fold(secs, rows[i..]) == Fold(AddRow(secs, rows[i]), rows[i + 1..])
  {
    assert rows[i..][0] == rows[i] && rows[i..][1..] == rows[i + 1..];
  }

  /** The untitled section opened before the loop, exactly when the first
      row is not a header. */
  function Opening(rows: seq<Row>): (secs: seq<SectionView>)
    requires |rows| > 0
    ensures |secs| == (if IsHeader(rows[0]) then 0 else 1)
    ensures forall k :: 0 <= k < |secs| ==> secs[k].title == "" && secs[k].ingredients == []
  {
    if IsHeader(rows[0]) then [] else [SectionView("", [])]
  }

  /** The sections that `addIngredients` appends for `rows`. */
  function Group(rows: seq<Row>): (secs: seq<SectionView>)
    requires |rows| > 0
    ensures |secs| > 0
  {
    Fold(Opening(rows), rows)
  }

  // ---------------------------------------------------------------------
  // An independent description of the grouping: the rows read as
  // `ingredient* (header ingredient*)*`, parsed from the right.

  /** The ingredients before the first header, and the sections the
      headers open, each with the ingredient rows up to the next header. */
  datatype Parsed = Parsed(lead: seq<Ingredient>, headed: seq<SectionView>)

  function Parse(rows: seq<Row>): (p: Parsed)
    ensures p.lead == [] <==> rows == [] || IsHeader(rows[0])
  {
    if rows == [] then Parsed([], [])
    else
      var p := Parse(rows[1..]);
      if IsHeader(rows[0]) then Parsed([], [SectionView(rows[0].substance, p.lead)] + p.headed)
      else Parsed([ToIngredient(rows[0])] + p.lead, p.headed)
  }

  /** The sections described by the grammar: an untitled section holding
      the leading ingredients, if there are any, then the headed ones. */
  function Reference(rows: seq<Row>): seq<SectionView>
    requires |rows| > 0
  {
    var p := Parse(rows);
    (if IsHeader(rows[0]) then [] else [SectionView("", p.lead)]) + p.headed
  }

  /** `secs` with `more` appended to the ingredients of its last section. */
  function Extend(secs: seq<SectionView>, more: seq<Ingredient>): seq<SectionView>
    requires more != [] ==> |secs| > 0
  {
    if secs == [] then secs
    else
      var last := secs[|secs| - 1];
      secs[..|secs| - 1] + [SectionView(last.title, last.ingredients + more)]
  }

  /** The loop, run from any section list, extends the last section with
      the leading ingredients and appends the headed sections. */
  lemma {:induction false} FoldIsParse(secs: seq<SectionView>, rows: seq<Row>)
    requires |rows| > 0 && !IsHeader(rows[0]) ==> |secs| > 0
    ensures Fold(secs, rows) == Extend(secs, Parse(rows).lead) + Parse(rows).headed
    decreases |rows|
  {
    if rows == [] {
      ExtendByNothing(secs);
    } else {
      var r, rest := rows[0], rows[1..];
      var p := Parse(rest);
      var next := AddRow(secs, r);
      FoldIsParse(next, rest);
      if IsHeader(r) {
        ExtendOpened(secs, r.substance, p.lead);
        ExtendByNothing(secs);
      } else {
        ExtendAppended(secs, ToIngredient(r), p.lead);
      }
    }
  }

  /** Extending a just-opened section fills that section. */
  lemma ExtendOpened(secs: seq<SectionView>, title: string, more: seq<Ingredient>)
    ensures Extend(secs + [SectionView(title, [])], more) == secs + [SectionView(title, more)]
  {
    var next := secs + [SectionView(title, [])];
    assert next[..|next| - 1] == secs;
    assert [] + more == more;
  }

  /** Appending one ingredient and then extending is extending by both. */
  lemma ExtendAppended(secs: seq<SectionView>, x: Ingredient, more: seq<Ingredient>)
    requires |secs| > 0
    ensures Extend(AppendToLast(secs, x), more) == Extend(secs, [x] + more)
  {
    var next := AppendToLast(secs, x);
    var last := secs[|secs| - 1];
    assert next[..|next| - 1] == secs[..|secs| - 1];
    assert last.ingredients + [x] + more == last.ingredients + ([x] + more);
  }

  lemma ExtendByNothing(secs: seq<SectionView>)
    ensures Extend(secs, []) == secs
  {
    if secs != [] {
      var last := secs[|secs| - 1];
      assert last.ingredients + [] == last.ingredients;
      assert secs[..|secs| - 1] + [last] == secs;
    }
  }

  /** The loop's result equals the grammar's description. */
  lemma GroupIsReference(rows: seq<Row>)
    requires |rows| > 0
    ensures Group(rows) == Reference(rows)
  {
    FoldIsParse(Opening(rows), rows);
    var p := Parse(rows);
    if IsHeader(rows[0]) {
      assert Extend([], p.lead) == [];
    } else {
      assert [SectionView("", [])][..0] == [];
      assert [] + p.lead == p.lead;
      assert Extend(Opening(rows), p.lead) == [SectionView("", p.lead)];
    }
  }

  /** Sections already present stay in front, untouched. */
  lemma {:induction false} FoldKeepsPrefix(pre: seq<SectionView>, secs: seq<SectionView>, rows: seq<Row>)
    requires |rows| > 0 && !IsHeader(rows[0]) ==> |secs| > 0
    ensures Fold(pre + secs, rows) == pre + Fold(secs, rows)
    decreases |rows|
  {
    if rows != [] {
      var next := AddRow(secs, rows[0]);
      if IsHeader(rows[0]) {
        assert AddRow(pre + secs, rows[0]) == pre + next;
      } else {
        assert (pre + secs)[..|pre + secs| - 1] == pre + secs[..|secs| - 1];
        assert AddRow(pre + secs, rows[0]) == pre + next;
      }
      FoldKeepsPrefix(pre, next, rows[1..]);
    }
  }

  function CountHeaders(rows: seq<Row>): nat
  {
    if rows == [] then 0 else (if IsHeader(rows[0]) then 1 else 0) + CountHeaders(rows[1..])
  }

  /** The ingredient rows, in document order, as ingredients. */
  function IngredientRows(rows: seq<Row>): seq<Ingredient>
  {
    if rows == [] then []
    else (if IsHeader(rows[0]) then [] else [ToIngredient(rows[0])]) + IngredientRows(rows[1..])
  }

  /** The substances of the header rows, in document order. */
  function HeaderTitles(rows: seq<Row>): seq<string>
  {
    if rows == [] then []
    else (if IsHeader(rows[0]) then [rows[0].substance] else []) + HeaderTitles(rows[1..])
  }

  /** All ingredients of all sections, section by section. */
  function Flatten(secs: seq<SectionView>): seq<Ingredient>
  {
    if secs == [] then [] else secs[0].ingredients + Flatten(secs[1..])
  }

  function Titles(secs: seq<SectionView>): (ts: seq<string>)
    ensures |ts| == |secs|
    ensures forall k :: 0 <= k < |secs| ==> ts[k] == secs[k].title
  {
    if secs == [] then [] else [secs[0].title] + Titles(secs[1..])
  }

  /** What parsing keeps of the rows: one section per header, titled with
      its substance, and every ingredient row once, in order. */
  lemma {:induction false} ParseAccounts(rows: seq<Row>)
    ensures |Parse(rows).headed| == CountHeaders(rows)
    ensures Titles(Parse(rows).headed) == HeaderTitles(rows)
    ensures Parse(rows).lead + Flatten(Parse(rows).headed) == IngredientRows(rows)
  {
    if rows != [] {
      var p := Parse(rows[1..]);
      ParseAccounts(rows[1..]);
      if IsHeader(rows[0]) {
        var s := SectionView(rows[0].substance, p.lead);
        assert ([s] + p.headed)[1..] == p.headed;
        assert Flatten([s] + p.headed) == p.lead + Flatten(p.headed);
      } else {
        assert [ToIngredient(rows[0])] + p.lead + Flatten(p.headed)
            == [ToIngredient(rows[0])] + (p.lead + Flatten(p.headed));
      }
    }
  }

  /** Number of sections: one per empty-amount row, plus the untitled one
      when the first amount is not empty. */
  lemma GroupCount(rows: seq<Row>)
    requires |rows| > 0
    ensures |Group(rows)| == CountHeaders(rows) + (if IsHeader(rows[0]) then 0 else 1)
  {
    GroupIsReference(rows);
    ParseAccounts(rows);
  }

  /** Section titles: '' for the untitled first section if there is one,
      then the substance of every empty-amount row, verbatim and in order. */
  lemma GroupTitles(rows: seq<Row>)
    requires |rows| > 0
    ensures Titles(Group(rows)) == (if IsHeader(rows[0]) then [] else [""]) + HeaderTitles(rows)
  {
    GroupIsReference(rows);
    ParseAccounts(rows);
    var p := Parse(rows);
    if IsHeader(rows[0]) {
      assert Group(rows) == p.headed;
    } else {
      var secs := [SectionView("", p.lead)] + p.headed;
      assert Group(rows) == secs;
      assert secs[1..] == p.headed;
      assert Titles(secs) == [""] + Titles(p.headed);
    }
  }

  /** Reading all sections in order gives exactly the non-header rows, in
      document order; so there are as many ingredients as such rows. */
  lemma GroupFlatten(rows: seq<Row>)
    requires |rows| > 0
    ensures Flatten(Group(rows)) == IngredientRows(rows)
    ensures |Flatten(Group(rows))| == |rows| - CountHeaders(rows)
  {
    GroupIsReference(rows);
    ParseAccounts(rows);
    var p := Parse(rows);
    if IsHeader(rows[0]) {
      assert [] + p.headed == p.headed;
      assert [] + Flatten(p.headed) == Flatten(p.headed);
    } else {
      assert ([SectionView("", p.lead)] + p.headed)[1..] == p.headed;
      assert Flatten([SectionView("", p.lead)] + p.headed) == p.lead + Flatten(p.headed);
    }
    IngredientRowsLength(rows);
  }

  lemma {:induction false} IngredientRowsLength(rows: seq<Row>)
    ensures |IngredientRows(rows)| == |rows| - CountHeaders(rows)
  {
    if rows != [] {
      IngredientRowsLength(rows[1..]);
    }
  }

  /** The first section: untitled and holding the leading ingredient rows
      when the first amount is non-empty, otherwise the section the first
      row opens. */
  lemma GroupFirst(rows: seq<Row>)
    requires |rows| > 0
    ensures |Group(rows)| > 0
    ensures Group(rows)[0] ==
      if IsHeader(rows[0]) then SectionView(rows[0].substance, Parse(rows[1..]).lead)
      else SectionView("", Parse(rows).lead)
  {
    GroupIsReference(rows);
  }

  /** Without any empty-amount row there is one untitled section, holding
      every row as an ingredient, in order. */
  lemma GroupWithoutHeaders(rows: seq<Row>)
    requires |rows| > 0
    requires forall i :: 0 <= i < |rows| ==> !IsHeader(rows[i])
    ensures Group(rows) == [SectionView("", IngredientRows(rows))]
    ensures |IngredientRows(rows)| == |rows|
  {
    GroupIsReference(rows);
    ParseAccounts(rows);
    NoHeadersCounted(rows);
    IngredientRowsLength(rows);
    var p := Parse(rows);
    assert p.headed == [];
    assert p.lead + [] == p.lead;
  }

  lemma {:induction false} NoHeadersCounted(rows: seq<Row>)
    requires forall i :: 0 <= i < |rows| ==> !IsHeader(rows[i])
    ensures CountHeaders(rows) == 0
  {
    if rows != [] {
      assert forall i :: 0 <= i < |rows[1..]| ==> rows[1..][i] == rows[i + 1];
      NoHeadersCounted(rows[1..]);
    }
  }

  // ---------------------------------------------------------------------
  // Instructions

  /** What one line contributes: its stripped form, unless that is empty. */
  function Kept(line: string): seq<string>
  {
    var t := Strip(line);
    if t == [] then [] else [t]
  }

  /** The list comprehension `[x.strip() for x in lines if x.strip() != ""]`. */
  function NonBlank(lines: seq<string>): (r: seq<string>)
    ensures |r| <= |lines|
  {
    if lines == [] then [] else Kept(lines[0]) + NonBlank(lines[1..])
  }

  /** The instruction steps of the preparation text: its lines, stripped,
      without the blank ones. */
  function GetInstructions(text: string): (steps: seq<string>)
    ensures |steps| <= Count(text, '\n') + 1
  {
    NonBlank(Split(text, '\n'))
  }

  /** Filtering a concatenation filters each part; so the steps keep the
      order of the lines. */
  lemma {:induction false} NonBlankAppend(a: seq<string>, b: seq<string>)
    ensures NonBlank(a + b) == NonBlank(a) + NonBlank(b)
  {
    if a == [] {
      assert a + b == b;
    } else {
      assert (a + b)[0] == a[0];
      assert (a + b)[1..] == a[1..] + b;
      NonBlankAppend(a[1..], b);
      assert Kept(a[0]) + (NonBlank(a[1..]) + NonBlank(b)) == (Kept(a[0]) + NonBlank(a[1..])) + NonBlank(b);
    }
  }

  /** Every step is the stripped form of some line, and every line that is
      not blank yields its stripped form as a step. */
  lemma {:induction false} NonBlankMembers(lines: seq<string>)
    ensures forall x :: x in NonBlank(lines) ==> exists l :: l in lines && x == Strip(l)
    ensures forall l :: l in lines && Strip(l) != "" ==> Strip(l) in NonBlank(lines)
  {
    if lines != [] {
      NonBlankMembers(lines[1..]);
      assert forall l :: l in lines[1..] ==> l in lines;
      assert forall l :: l in lines ==> l == lines[0] || l in lines[1..];
    }
  }

  /** Filtering again changes nothing. */
  lemma {:induction false} NonBlankIdempotent(lines: seq<string>)
    ensures NonBlank(NonBlank(lines)) == NonBlank(lines)
  {
    if lines != [] {
      NonBlankIdempotent(lines[1..]);
      var k := Kept(lines[0]);
      if k == [] {
        assert NonBlank(lines) == NonBlank(lines[1..]);
      } else {
        StripIdempotent(lines[0]);
        assert Kept(k[0]) == k;
        var out := k + NonBlank(lines[1..]);
        assert out[0] == k[0] && out[1..] == NonBlank(lines[1..]);
        assert NonBlank(out) == k + NonBlank(NonBlank(lines[1..]));
      }
    }
  }

  /** Each step is the stripped form of a line that is not blank. */
  lemma {:induction false} SourceLine(lines: seq<string>, k: nat) returns (j: nat)
    requires k < |NonBlank(lines)|
    ensures j < |lines| && NonBlank(lines)[k] == Strip(lines[j]) != []
  {
    var head, rest := Kept(lines[0]), NonBlank(lines[1..]);
    assert NonBlank(lines) == head + rest;
    if k < |head| {
      j := 0;
      assert head == [Strip(lines[0])];
    } else {
      var j' := SourceLine(lines[1..], k - |head|);
      j := j' + 1;
      assert (head + rest)[k] == rest[k - |head|];
      assert lines[1..][j'] == lines[j];
    }
  }

  /** Every step is non-empty and has no whitespace at either end. */
  lemma NonBlankElements(lines: seq<string>)
    ensures forall k :: 0 <= k < |NonBlank(lines)| ==>
      var x := NonBlank(lines)[k];
      x != [] && !IsSpace(x[0]) && !IsSpace(x[|x| - 1])
  {
    forall k | 0 <= k < |NonBlank(lines)|
      ensures var x := NonBlank(lines)[k];
        x != [] && !IsSpace(x[0]) && !IsSpace(x[|x| - 1])
    {
      var j := SourceLine(lines, k);
    }
  }

  /** A step holds only characters of the line it comes from, so lines
      without a line break give steps without one. */
  lemma NonBlankNoBreak(lines: seq<string>)
    requires forall j :: 0 <= j < |lines| ==> '\n' !in lines[j]
    ensures forall k :: 0 <= k < |NonBlank(lines)| ==> '\n' !in NonBlank(lines)[k]
  {
    forall k | 0 <= k < |NonBlank(lines)|
      ensures '\n' !in NonBlank(lines)[k]
    {
      var j := SourceLine(lines, k);
      StripSlice(lines[j]);
      var t := Strip(lines[j]);
      var i := LeadingSpace(lines[j]);
      forall c | 0 <= c < |t|
        ensures t[c] != '\n'
      {
        assert t[c] == lines[j][i + c];
      }
    }
  }

  /** Each step is non-empty, has no whitespace at either end and no line
      break, and there are no more steps than lines of text. */
  lemma InstructionsShape(text: string)
    ensures |GetInstructions(text)| <= Count(text, '\n') + 1
    ensures forall k :: 0 <= k < |GetInstructions(text)| ==>
      var x := GetInstructions(text)[k];
      x != "" && !IsSpace(x[0]) && !IsSpace(x[|x| - 1]) && '\n' !in x
  {
    var lines := Split(text, '\n');
    var steps := NonBlank(lines);
    assert GetInstructions(text) == steps;
    assert |steps| <= |lines| == Count(text, '\n') + 1;
    NonBlankElements(lines);
    NonBlankNoBreak(lines);
  }

  // ---------------------------------------------------------------------
  // Output file name

  /** `s.translate(str.maketrans(' ', '-', ','))`: spaces become hyphens and
      commas are deleted. */
  function Translate(s: string): (r: string)
    ensures |r| == |s| - Count(s, ',')
    ensures ' ' !in r && ',' !in r
  {
    if s == [] then []
    else (if s[0] == ',' then [] else [if s[0] == ' ' then '-' else s[0]]) + Translate(s[1..])
  }

  /** The file name derived from a recipe title. */
  function GetFilename(title: string): (name: string)
    ensures |name| >= 5 && name[|name| - 5..] == ".html"
  {
    Translate(LowerStr(title)) + ".html"
  }

  function FileChar(c: char): char
  {
    if c == ' ' then '-' else Lower(c)
  }

  lemma {:induction false} LowerKeepsCommas(s: string)
    ensures Count(LowerStr(s), ',') == Count(s, ',')
  {
    if s != [] {
      assert LowerStr(s)[1..] == LowerStr(s[1..]);
      LowerKeepsCommas(s[1..]);
    }
  }

  /** Shape of the name: the stem has no space, no comma and no upper-case
      ASCII letter, and is as long as the title without its commas. */
  lemma FilenameShape(title: string)
    ensures var name := GetFilename(title);
      var stem := name[..|name| - 5];
      |stem| == |title| - Count(title, ',') && ' ' !in stem && ',' !in stem &&
      forall i :: 0 <= i < |stem| ==> !('A' <= stem[i] <= 'Z')
  {
    LowerKeepsCommas(title);
    var name := GetFilename(title);
    var stem := name[..|name| - 5];
    assert stem == Translate(LowerStr(title));
    TranslateLower(LowerStr(title));
  }

  lemma {:induction false} TranslateLower(s: string)
    requires forall i :: 0 <= i < |s| ==> !('A' <= s[i] <= 'Z')
    ensures forall i :: 0 <= i < |Translate(s)| ==> !('A' <= Translate(s)[i] <= 'Z')
  {
    if s != [] {
      TranslateLower(s[1..]);
    }
  }

  /** Character by character: every character of the title that is not a
      comma reappears, at its position less the commas before it, as a
      hyphen if it is a space and lower-cased otherwise. */
  lemma {:induction false} FilenameCharAt(title: string, i: nat)
    requires i < |title| && title[i] != ','
    ensures var name := GetFilename(title);
      var at := i - Count(title[..i], ',');
      0 <= at < |name| - 5 && name[at] == FileChar(title[i])
  {
    StemCharAt(title, i);
  }

  lemma StemCharAt(title: string, i: nat)
    requires i < |title| && title[i] != ','
    ensures var stem := Translate(LowerStr(title));
      var at := i - Count(title[..i], ',');
      0 <= at < |stem| && stem[at] == FileChar(title[i])
  {
    var low := LowerStr(title);
    assert low[i] == Lower(title[i]);
    TranslateCharAt(low, i);
    assert low[..i] == LowerStr(title[..i]);
    LowerKeepsCommas(title[..i]);
  }

  /** Each character of `s` that is not a comma reappears in `Translate(s)`
      at its position less the commas before it. */
  lemma {:induction false} TranslateCharAt(s: string, i: nat)
    requires i < |s| && s[i] != ','
    ensures var at := i - Count(s[..i], ',');
      0 <= at < |Translate(s)| && Translate(s)[at] == (if s[i] == ' ' then '-' else s[i])
  {
    var head: string := if s[0] == ',' then [] else [if s[0] == ' ' then '-' else s[0]];
    var tail := Translate(s[1..]);
    assert Translate(s) == head + tail;
    CountPrefix(s, i);
    if i > 0 {
      TranslateCharAt(s[1..], i - 1);
      var at' := i - 1 - Count(s[1..][..i - 1], ',');
      assert s[1..][i - 1] == s[i];
      assert s[..i][1..] == s[1..][..i - 1];
      assert s[..i][0] == s[0];
      assert Count(s[..i], ',') == 1 - |head| + Count(s[1..][..i - 1], ',');
      assert Translate(s)[|head| + at'] == tail[at'];
    } else {
      assert s[..i] == [];
    }
  }

  lemma CountPrefix(s: string, i: nat)
    requires i < |s|
    ensures Count(s[..i], ',') <= i
    ensures s[i] != ',' ==> i - Count(s[..i], ',') < |s| - Count(s, ',')
  {
    assert s == s[..i] + s[i..];
    CountAppend(s[..i], s[i..], ',');
    assert s[i..][1..] == s[i + 1..];
  }

  lemma {:induction false} CountAppend(a: string, b: string, c: char)
    ensures Count(a + b, c) == Count(a, c) + Count(b, c)
  {
    if a != [] {
      assert (a + b)[0] == a[0];
      assert (a + b)[1..] == a[1..] + b;
      CountAppend(a[1..], b, c);
    } else {
      assert a + b == b;
    }
  }

  /** A stem is its own stem: deriving a name from it changes nothing. */
  lemma StemIsStable(title: string)
    ensures var stem := Translate(LowerStr(title));
      GetFilename(stem) == stem + ".html"
  {
    var stem := Translate(LowerStr(title));
    FilenameShape(title);
    StableIfNormal(stem);
  }

  lemma {:induction false} StableIfNormal(s: string)
    requires ' ' !in s && ',' !in s
    requires forall i :: 0 <= i < |s| ==> !('A' <= s[i] <= 'Z')
    ensures Translate(LowerStr(s)) == s
  {
    if s != [] {
      assert LowerStr(s)[1..] == LowerStr(s[1..]);
      StableIfNormal(s[1..]);
    }
  }

  lemma {:induction false} TranslateAppend(a: string, b: string)
    ensures Translate(a + b) == Translate(a) + Translate(b)
  {
    if a == [] {
      assert a + b == b;
    } else {
      assert (a + b)[0] == a[0];
      assert (a + b)[1..] == a[1..] + b;
      TranslateAppend(a[1..], b);
    }
  }

  // ---------------------------------------------------------------------
  // The extractor

  /** Builds a recipe from one page. The parser lookups are abstracted:
      the page title, the text of the preparation element and the
      ingredient rows are given. */
  class ChefkochHTMLToRecipe {
    /** Set once, when the converter is built. */
    const recipe: Recipe

    ghost predicate Valid()
      reads recipe, recipe.Repr
    {
      recipe.Valid()
    }

    constructor (title: string, instructionText: string, rows: seq<Row>)
      requires |rows| > 0
      ensures Valid() && fresh(recipe)
      ensures recipe.title == title
      ensures recipe.instructions == GetInstructions(instructionText)
      ensures recipe.Sections() == Group(rows)
    {
      recipe := new Recipe();
      new;
      ParseHTML(title, instructionText, rows);
    }

    /** Sets the title, then appends the instructions, then the ingredients. */
    method ParseHTML(title: string, instructionText: string, rows: seq<Row>)
      requires Valid() && |rows| > 0
      modifies recipe.Repr
      ensures Valid() && fresh(recipe.Repr - old(recipe.Repr))
      ensures recipe.title == title
      ensures recipe.instructions == old(recipe.instructions) + GetInstructions(instructionText)
      ensures recipe.Sections() == old(recipe.Sections()) + Group(rows)
    {
      recipe.SetTitle(title);
      recipe.AddInstructions(GetInstructions(instructionText));
      AddIngredients(rows);
    }

    /** Groups the rows into sections of the recipe. An untitled section is
        opened first unless the first row opens one itself, so the recipe
        has a section whenever an ingredient is added. */
    method AddIngredients(rows: seq<Row>)
      requires Valid() && |rows| > 0
      modifies recipe.Repr
      ensures Valid() && fresh(recipe.Repr - old(recipe.Repr))
      ensures recipe.Sections() == old(recipe.Sections()) + Group(rows)
      ensures recipe.title == old(recipe.title) && recipe.instructions == old(recipe.instructions)
    {
      ghost var before := recipe.Sections();
      ghost var goal := before + Group(rows);
      if rows[0].amount != "" {
        recipe.AddIngredientSection();
      }
      assert recipe.Sections() == before + Opening(rows);
      FoldKeepsPrefix(before, Opening(rows), rows);
      for i := 0 to |rows|
        invariant Valid() && fresh(recipe.Repr - old(recipe.Repr))
        invariant |recipe.Sections()| > 0 || (i == 0 && IsHeader(rows[0]))
        invariant Fold(recipe.Sections(), rows[i..]) == goal
        invariant recipe.title == old(recipe.title) && recipe.instructions == old(recipe.instructions)
      {
        FoldStep(recipe.Sections(), rows, i);
        AddRowToRecipe(rows[i]);
      }
      assert rows[|rows|..] == [];
    }

    /** The body of the loop: a row with an empty amount opens a section
        titled with its substance, any other row is added to the last one. */
    method AddRowToRecipe(row: Row)
      requires Valid() && (!IsHeader(row) ==> |recipe.Sections()| > 0)
      modifies recipe.Repr
      ensures Valid() && fresh(recipe.Repr - old(recipe.Repr))
      ensures recipe.Sections() == AddRow(old(recipe.Sections()), row)
      ensures recipe.title == old(recipe.title) && recipe.instructions == old(recipe.instructions)
    {
      var amount := row.amount;
      var substance := row.substance;
      if amount == "" {
        recipe.AddIngredientSection(substance);
      } else {
        recipe.AddIngredient(amount, substance);
      }
    }
  }
}
