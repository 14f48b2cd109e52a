/** The seed-script generator: reads categories with their products and
    writes the SQL that inserts them, categories first with ids 1..n in
    input order, then products with ids 1..m in input order, each product
    row naming its category by the id recorded for that category's name.

    Reading the JSON file and writing the script are left to the caller:
    the input is the parsed category list and the output is the list of
    lines that the script joins with newlines. */
module SeedSql {
  import opened Wrappers
  import opened Text
  import Seqs

  datatype ProductIn = ProductIn(name: string, slug: string, anchor: string)

  datatype CategoryIn = CategoryIn(name: string, slug: string, url: string, products: seq<ProductIn>)

  // ---------------------------------------------------------------- quoting

  /** `replace("'", "''")`: every quote is doubled. */
  function Escape(s: string): (r: string)
    ensures |r| >= |s|
    decreases |s|
  {
    if |s| == 0 then []
    else (if s[0] == '\'' then "''" else [s[0]]) + Escape(s[1..])
  }

  /** How SQL reads the body of a quoted literal: `''` stands for one quote
      and a lone quote would end the literal early (`None`). */
  function Unescape(s: string): Option<string>
    decreases |s|
  {
    if |s| == 0 then Some([])
    else if s[0] == '\'' then
      if |s| >= 2 && s[1] == '\'' then
        match Unescape(s[2..])
        case Some(t) => Some("'" + t)
        case None => None
      else None
    else
      match Unescape(s[1..])
      case Some(t) => Some([s[0]] + t)
      case None => None
  }

  /** Every escaped string is read back by SQL as the original: no value
      can end its literal early or inject SQL. */
  lemma {:induction false} EscapeRoundTrip(s: string)
    ensures Unescape(Escape(s)) == Some(s)
    decreases |s|
  {
    if |s| > 0 {
      EscapeRoundTrip(s[1..]);
      var e := Escape(s);
      if s[0] == '\'' {
        assert e == "''" + Escape(s[1..]);
        assert e[2..] == Escape(s[1..]);
      } else {
        assert e == [s[0]] + Escape(s[1..]);
        assert e[1..] == Escape(s[1..]);
      }
      assert s == [s[0]] + s[1..];
    }
  }

  function Literal(s: string): string {
    "'" + Escape(s) + "'"
  }

  // ------------------------------------------------------------------ lines

  const Header: seq<string> := [
    "-- SQL Insert Script for Categories and Products",
    "-- Generated from product category.json",
    "",
    "-- Insert Categories",
    ""]

  const Separator: seq<string> := ["", "-- Insert Products", ""]

  function CategoryLine(id: nat, c: CategoryIn): string {
    "INSERT INTO categories (id, name, slug, url) VALUES (" + NatToString(id) + ", "
      + Literal(c.name) + ", " + Literal(c.slug) + ", " + Literal(c.url) + ");"
  }

  function ProductLine(id: nat, p: ProductIn, categoryId: nat, categoryName: string): string {
    "INSERT INTO products (id, title, slug, anchor, category_id, category_name) VALUES ("
      + NatToString(id) + ", " + Literal(p.name) + ", " + Literal(p.slug) + ", " + Literal(p.anchor)
      + ", " + NatToString(categoryId) + ", " + Literal(categoryName) + ");"
  }

  /** One INSERT statement, before formatting. */
  datatype Row =
    | CategoryRow(id: nat, category: CategoryIn)
    | ProductRow(id: nat, product: ProductIn, categoryId: nat, categoryName: string)

  /** The f-string that formats a row. */
  function Render(row: Row): string {
    match row
    case CategoryRow(id, c) => CategoryLine(id, c)
    case ProductRow(id, p, categoryId, name) => ProductLine(id, p, categoryId, name)
  }

  // -------------------------------------------------------- specification

  /** `category_id_map` after the first loop: every category's name is a
      key. */
  function IdMap(cats: seq<CategoryIn>): (m: map<string, nat>)
    ensures forall i :: 0 <= i < |cats| ==> cats[i].name in m
    decreases |cats|
  {
    if |cats| == 0 then map[]
    else
      var n := |cats|;
      var m := IdMap(cats[..n - 1]);
      assert forall i :: 0 <= i < n - 1 ==> cats[..n - 1][i] == cats[i];
      m[cats[n - 1].name := n]
  }

  /** Every key maps to the id of a category carrying that name. */
  lemma {:induction false} IdMapSound(cats: seq<CategoryIn>, name: string)
    requires name in IdMap(cats)
    ensures 1 <= IdMap(cats)[name] <= |cats| && cats[IdMap(cats)[name] - 1].name == name
    decreases |cats|
  {
    var n := |cats|;
    if cats[n - 1].name != name {
      IdMapSound(cats[..n - 1], name);
      var id := IdMap(cats[..n - 1])[name];
      assert cats[..n - 1][id - 1] == cats[id - 1];
    }
  }

  /** With repeated names the later category wins: the recorded id is the
      position of the LAST category with that name. */
  lemma {:induction false} IdMapLastWins(cats: seq<CategoryIn>, i: nat)
    requires i < |cats|
    ensures IdMap(cats)[cats[i].name] > i
    decreases |cats|
  {
    var n := |cats|;
    if i < n - 1 && cats[n - 1].name != cats[i].name {
      IdMapLastWins(cats[..n - 1], i);
    }
  }

  /** The category rows: one per category, in input order. */
  function CategoryRows(cats: seq<CategoryIn>): (r: seq<Row>)
    ensures |r| == |cats|
    decreases |cats|
  {
    if |cats| == 0 then []
    else CategoryRows(cats[..|cats| - 1]) + [CategoryRow(|cats|, cats[|cats| - 1])]
  }

  /** Row `i` inserts category `i` with id `i + 1`. */
  lemma {:induction false} CategoryRowsIndex(cats: seq<CategoryIn>, i: nat)
    requires i < |cats|
    ensures CategoryRows(cats)[i] == CategoryRow(i + 1, cats[i])
    decreases |cats|
  {
    var n := |cats|;
    if i < n - 1 {
      CategoryRowsIndex(cats[..n - 1], i);
      assert cats[..n - 1][i] == cats[i];
    }
  }

  /** The products of one category, each paired with the category's name. */
  function FlatBlock(c: CategoryIn): (r: seq<(ProductIn, string)>)
    ensures |r| == |c.products|
    ensures forall j :: 0 <= j < |r| ==> r[j] == (c.products[j], c.name)
  {
    seq(|c.products|, j requires 0 <= j < |c.products| => (c.products[j], c.name))
  }

  /** Every product paired with the name of the category it is listed
      under, in input order. */
  function Flat(cats: seq<CategoryIn>): seq<(ProductIn, string)>
    decreases |cats|
  {
    if |cats| == 0 then [] else Flat(cats[..|cats| - 1]) + FlatBlock(cats[|cats| - 1])
  }

  /** The number of products over all categories, as the script reports it. */
  function Total(cats: seq<CategoryIn>): nat
    decreases |cats|
  {
    if |cats| == 0 then 0 else Total(cats[..|cats| - 1]) + |cats[|cats| - 1].products|
  }

  /** The script's closing product count is the number of product rows. */
  lemma {:induction false} FlatCount(cats: seq<CategoryIn>)
    ensures |Flat(cats)| == Total(cats)
    decreases |cats|
  {
    if |cats| > 0 {
      FlatCount(cats[..|cats| - 1]);
    }
  }

  /** Each flattened entry is a product of a category with that name. */
  lemma {:induction false} FlatSource(cats: seq<CategoryIn>, k: nat) returns (i: nat)
    requires k < |Flat(cats)|
    ensures i < |cats| && Flat(cats)[k].1 == cats[i].name && Flat(cats)[k].0 in cats[i].products
    decreases |cats|
  {
    var n := |cats|;
    var before := Flat(cats[..n - 1]);
    if k < |before| {
      i := FlatSource(cats[..n - 1], k);
      assert cats[..n - 1][i] == cats[i];
    } else {
      i := n - 1;
      assert Flat(cats)[k] == FlatBlock(cats[n - 1])[k - |before|];
    }
  }

  /** The first `j` product rows of one category, numbered from `start + 1`. */
  function BlockRows(start: nat, c: CategoryIn, categoryId: nat, j: nat): (r: seq<Row>)
    requires j <= |c.products|
    ensures |r| == j
  {
    if j == 0 then []
    else BlockRows(start, c, categoryId, j - 1) + [ProductRow(start + j, c.products[j - 1], categoryId, c.name)]
  }

  /** The product rows: each category's block in turn, numbered on from the
      rows before it, under the id the map records for its name. */
  function ProductRows(cats: seq<CategoryIn>, ids: map<string, nat>): (r: seq<Row>)
    requires forall i :: 0 <= i < |cats| ==> cats[i].name in ids
    ensures |r| == |Flat(cats)|
    decreases |cats|
  {
    if |cats| == 0 then []
    else
      var n := |cats|;
      var last := cats[n - 1];
      var before := ProductRows(cats[..n - 1], ids);
      before + BlockRows(|before|, last, ids[last.name], |last.products|)
  }

  lemma {:induction false} BlockRowsIndex(start: nat, c: CategoryIn, categoryId: nat, j: nat, k: nat)
    requires k < j <= |c.products|
    ensures BlockRows(start, c, categoryId, j)[k] == ProductRow(start + k + 1, c.products[k], categoryId, c.name)
    decreases j
  {
    if k < j - 1 {
      BlockRowsIndex(start, c, categoryId, j - 1, k);
    }
  }

  /** Row `k` inserts the `k`-th product overall with id `k + 1`, under the
      id recorded for its category's name, naming that category. */
  lemma {:induction false} ProductRowsIndex(cats: seq<CategoryIn>, ids: map<string, nat>, k: nat)
    requires forall i :: 0 <= i < |cats| ==> cats[i].name in ids
    requires k < |Flat(cats)|
    ensures Flat(cats)[k].1 in ids
    ensures ProductRows(cats, ids)[k] == ProductRow(k + 1, Flat(cats)[k].0, ids[Flat(cats)[k].1], Flat(cats)[k].1)
    decreases |cats|
  {
    var n := |cats|;
    var prefix := cats[..n - 1];
    var last := cats[n - 1];
    assert forall i :: 0 <= i < n - 1 ==> prefix[i] == cats[i];
    var before := ProductRows(prefix, ids);
    if k < |before| {
      ProductRowsIndex(prefix, ids, k);
      assert Flat(cats)[k] == Flat(prefix)[k];
    } else {
      BlockRowsIndex(|before|, last, ids[last.name], |last.products|, k - |before|);
      assert Flat(cats)[k] == FlatBlock(last)[k - |before|];
    }
  }

  /** One more category appends its block. */
  lemma ProductRowsStep(cats: seq<CategoryIn>, i: nat, ids: map<string, nat>)
    requires i < |cats|
    requires forall k :: 0 <= k < |cats| ==> cats[k].name in ids
    ensures ProductRows(cats[..i + 1], ids)
      == ProductRows(cats[..i], ids) + BlockRows(|Flat(cats[..i])|, cats[i], ids[cats[i].name], |cats[i].products|)
    ensures |Flat(cats[..i + 1])| == |Flat(cats[..i])| + |cats[i].products|
  {
    assert cats[..i + 1][..i] == cats[..i];
  }

  /** Every product row names a category the script inserted: its
      `category_id` is the id of a category row whose name is the product
      row's `category_name`. */
  lemma ProductRowsReferenceCategories(cats: seq<CategoryIn>, k: nat)
    requires k < |Flat(cats)|
    ensures var name := Flat(cats)[k].1;
      && name in IdMap(cats)
      && var id := IdMap(cats)[name];
      1 <= id <= |cats| && cats[id - 1].name == name
      && CategoryRows(cats)[id - 1] == CategoryRow(id, cats[id - 1])
  {
    var i := FlatSource(cats, k);
    IdMapSound(cats, cats[i].name);
    var id := IdMap(cats)[cats[i].name];
    CategoryRowsIndex(cats, id - 1);
  }

  // ------------------------------------------------------------ the script

  /** The first loop: one row per category, and the name-to-id map. */
  method InsertCategories(cats: seq<CategoryIn>) returns (rows: seq<Row>, ids: map<string, nat>)
    ensures rows == CategoryRows(cats)
    ensures ids == IdMap(cats)
  {
    rows := [];
    ids := map[];
    var counter := 1;
    var i := 0;
    while i < |cats|
      invariant 0 <= i <= |cats| && counter == i + 1
      invariant ids == IdMap(cats[..i])
      invariant rows == CategoryRows(cats[..i])
    {
      assert cats[..i + 1][..i] == cats[..i];
      ids := ids[cats[i].name := counter];
      rows := rows + [CategoryRow(counter, cats[i])];
      counter := counter + 1;
      i := i + 1;
    }
    assert cats[..|cats|] == cats;
  }

  /** The second loop: one row per product, numbered across categories. */
  method InsertProducts(cats: seq<CategoryIn>, ids: map<string, nat>) returns (rows: seq<Row>)
    requires forall k :: 0 <= k < |cats| ==> cats[k].name in ids
    ensures rows == ProductRows(cats, ids)
  {
    rows := [];
    var productCounter := 1;
    var i := 0;
    while i < |cats|
      invariant 0 <= i <= |cats|
      invariant productCounter == |Flat(cats[..i])| + 1
      invariant rows == ProductRows(cats[..i], ids)
    {
      var c := cats[i];
      var categoryId := ids[c.name];
      var block := [];
      var j := 0;
      while j < |c.products|
        invariant 0 <= j <= |c.products|
        invariant productCounter == |Flat(cats[..i])| + j + 1
        invariant block == BlockRows(|Flat(cats[..i])|, c, categoryId, j)
      {
        block := block + [ProductRow(productCounter, c.products[j], categoryId, c.name)];
        productCounter := productCounter + 1;
        j := j + 1;
      }
      ProductRowsStep(cats, i, ids);
      rows := rows + block;
      i := i + 1;
    }
    assert cats[..|cats|] == cats;
  }

  /** The whole script: the header, one statement per category, the
      separator, then one statement per product. Row `i` of the first
      block and row `k` of the second are described by `CategoryRowsIndex`
      and `ProductRowsIndex`. */
  method GenerateSql(cats: seq<CategoryIn>) returns (lines: seq<string>)
    ensures lines == Header + Seqs.Map(CategoryRows(cats), Render) + Separator
                     + Seqs.Map(ProductRows(cats, IdMap(cats)), Render)
    ensures |lines| == |Header| + |cats| + |Separator| + Total(cats)
  {
    var categoryRows, ids := InsertCategories(cats);
    var productRows := InsertProducts(cats, ids);
    lines := Header + Seqs.Map(categoryRows, Render) + Separator + Seqs.Map(productRows, Render);
    FlatCount(cats);
  }

  // ----------------------------------------------- line 44 as it is written

  /** The two Python grammars for the expression inside an f-string
      replacement field. Before PEP 701 (Python 3.12) the expression may not
      contain a backslash at all. From PEP 701 on it is tokenised as
      ordinary code, where a backslash outside a string literal continues
      the line and must be followed by the line break. */
  datatype Grammar = BeforePep701 | Pep701

  /** Where the tokeniser stands inside a replacement field: in code, just
      after a line-continuation backslash, inside a string literal opened
      by quote `q`, or just after a backslash inside such a literal. */
  datatype Mode = InCode | AfterContinuation | InString(q: char) | InStringEscape(q: char)

  /** One character of the field; `None` is a syntax error. */
  function Step(m: Mode, c: char): Option<Mode> {
    match m
    case InCode =>
      if c == '\\' then Some(AfterContinuation)
      else if c == '\'' || c == '"' then Some(InString(c))
      else Some(InCode)
    case AfterContinuation => if c == '\n' then Some(InCode) else None
    case InString(q) =>
      if c == '\\' then Some(InStringEscape(q)) else if c == q then Some(InCode) else Some(InString(q))
    case InStringEscape(q) => Some(InString(q))
  }

  /** The mode after reading `s` from mode `m`, or `None` at the first error. */
  function Scan(m: Mode, s: string): Option<Mode>
    decreases |s|
  {
    if |s| == 0 then Some(m)
    else
      match Step(m, s[0])
      case None => None
      case Some(m') => Scan(m', s[1..])
  }

  /** Whether a replacement-field expression is accepted by the grammar. */
  predicate FieldCompiles(g: Grammar, expr: string) {
    && (g == BeforePep701 ==> '\\' !in expr)
    && Scan(InCode, expr) == Some(InCode)
  }

  /** The expression of the last replacement field on line 44, character
      for character: the quotes around the replace arguments are written
      with backslashes. It is spelt in the four pieces the tokeniser's
      state depends on. */
  const Line44Field: string := "category[" + "'name'" + "].replace(" + "\\\"'\\\", \\\"''\\\")"

  /** The script as written. Python compiles the whole module before it
      runs any of it, so line 44 decides whether any SQL is written at all:
      `None` is the SyntaxError. */
  function GenerateSqlAsWritten(cats: seq<CategoryIn>, g: Grammar, field: string): (r: Option<seq<string>>)
    requires field == Line44Field
    ensures r.Some? <==> FieldCompiles(g, field)
    ensures r.Some? ==> |r.value| == |Header| + |cats| + |Separator| + Total(cats)
  {
    if FieldCompiles(g, field) then
      FlatCount(cats);
      Some(Header + Seqs.Map(CategoryRows(cats), Render) + Separator + Seqs.Map(ProductRows(cats, IdMap(cats)), Render))
    else None
  }

  /** Reading two pieces in a row. */
  lemma {:induction false} ScanAppend(m: Mode, a: string, b: string)
    ensures Scan(m, a + b) == match Scan(m, a) case None => None case Some(m') => Scan(m', b)
    decreases |a|
  {
    if |a| == 0 {
      assert a + b == b;
    } else {
      assert (a + b)[0] == a[0] && (a + b)[1..] == a[1..] + b;
      match Step(m, a[0])
      case None =>
      case Some(m') => ScanAppend(m', a[1..], b);
    }
  }

  /** InCode without quotes or backslashes stays code. */
  lemma {:induction false} ScanPlainCode(s: string)
    requires forall i :: 0 <= i < |s| ==> s[i] != '\\' && s[i] != '\'' && s[i] != '"'
    ensures Scan(InCode, s) == Some(InCode)
    decreases |s|
  {
    if |s| > 0 {
      ScanPlainCode(s[1..]);
    }
  }

  /** A literal body without its quote or a backslash stays inside the literal. */
  lemma {:induction false} ScanLiteralBody(q: char, s: string)
    requires forall i :: 0 <= i < |s| ==> s[i] != '\\' && s[i] != q
    ensures Scan(InString(q), s) == Some(InString(q))
    decreases |s|
  {
    if |s| > 0 {
      ScanLiteralBody(q, s[1..]);
    }
  }

  /** A backslash in code that is not followed by the line break is an error,
      whatever comes after. */
  lemma StrayBackslash(s: string)
    requires |s| >= 2 && s[0] == '\\' && s[1] != '\n'
    ensures Scan(InCode, s) == None
  {
    assert Scan(InCode, s) == Scan(AfterContinuation, s[1..]);
  }

  /** Line 44's field is rejected by both grammars: before PEP 701 for
      containing a backslash, from PEP 701 on because its first backslash
      stands in code, outside every literal, and is followed by a quote. So
      the module never compiles and the script writes no SQL. */
  lemma Line44NeverCompiles(cats: seq<CategoryIn>, g: Grammar, field: string)
    requires field == Line44Field
    ensures !FieldCompiles(g, field)
    ensures GenerateSqlAsWritten(cats, g, field).None?
  {
    var head, name, call, rest := Line44Pieces(field);
    var before := head + name + call;
    ScanAppend(InCode, head, name);
    ScanAppend(InCode, head + name, call);
    ScanAppend(InCode, before, rest);
    assert field[|before|] == rest[0] == '\\';
  }

  /** Line 44's field cut where the tokeniser's state matters: plain code, a
      complete literal, plain code, and the rest, which opens with a stray
      backslash. */
  lemma Line44Pieces(field: string) returns (head: string, name: string, call: string, rest: string)
    requires field == Line44Field
    ensures field == head + name + call + rest
    ensures Scan(InCode, head) == Some(InCode) && Scan(InCode, name) == Some(InCode)
    ensures Scan(InCode, call) == Some(InCode) && Scan(InCode, rest) == None
    ensures |rest| > 0 && rest[0] == '\\'
  {
    head := "category[";
    name := "'name'";
    call := "].replace(";
    rest := "\\\"'\\\", \\\"''\\\")";
    PlainPieces(head, call);
    QuotedName(name);
    RestFails(rest);
  }

  /** The two code pieces around the literal hold no quote or backslash. */
  lemma PlainPieces(head: string, call: string)
    requires head == "category[" && call == "].replace("
    ensures Scan(InCode, head) == Some(InCode) && Scan(InCode, call) == Some(InCode)
  {
    ScanPlainCode(head);
    ScanPlainCode(call);
  }

  /** The rest of the field opens with a backslash followed by a quote. */
  lemma RestFails(rest: string)
    requires rest == "\\\"'\\\", \\\"''\\\")"
    ensures |rest| > 0 && rest[0] == '\\' && Scan(InCode, rest) == None
  {
    StrayBackslash(rest);
  }

  /** The literal `'name'` leaves the tokeniser in code again. */
  lemma QuotedName(name: string)
    requires name == "'name'"
    ensures Scan(InCode, name) == Some(InCode)
  {
    var body := name[1..5];
    ScanLiteralBody('\'', body);
    ScanAppend(InString('\''), body, name[5..]);
    assert name[1..] == body + name[5..];
    assert Scan(InCode, name) == Scan(InString('\''), name[1..]);
  }
}
