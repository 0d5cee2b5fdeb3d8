/** The keyword table: one rule per spreadsheet row, its label ("header")
    `brand + "_" + product`, and the resolution of the comma-separated
    `required_product` list into a `"|"`-joined list of keywords. The same
    logic appears in utils/preprocessor.py (column `required_keyword`),
    utils/dataloader.py and tools/dataloader.py (column `required_kw`). */
module KeywordRules {
  import opened Text

  /** A row as read from the spreadsheet, empty cells already filled with "". */
  datatype RawRule = RawRule(brand: string, product: string, keyword: string, requiredProduct: string)

  /** A row of the validated keyword table. */
  datatype KeywordRule = KeywordRule(
    brand: string,
    product: string,
    keyword: string,
    requiredProduct: string,
    requiredKeyword: string,
    header: string)

  /** The label of a rule: `brand.str.cat(product, "_")`. */
  function Header(brand: string, product: string): string {
    brand + "_" + product
  }

  /** A label always holds an underscore, so it never collides with the chat
      table's own columns. */
  lemma HeaderNotChatColumn(brand: string, product: string)
    ensures Header(brand, product) != "messageBody"
    ensures Header(brand, product) != "Reason"
    ensures Header(brand, product) != "Source"
    ensures Header(brand, product) != "Group"
  {
    var h := Header(brand, product);
    assert h[|brand|] == '_';
    assert '_' in h;
  }

  /** When neither part holds an underscore, the label determines brand and product. */
  lemma HeaderRoundTrip(brand: string, product: string)
    requires '_' !in brand && '_' !in product
    ensures Split(Header(brand, product), '_') == [brand, product]
  {
    SplitJoin([brand, product], '_');
    assert Join([brand, product], "_") == brand + "_" + Join([product], "_");
  }

  /** The product names of a `required_product` cell:
      `[p.strip() for p in req_prod.split(",")]`. */
  function RequiredProducts(requiredProduct: string): (names: seq<string>)
    ensures |names| >= 1
  {
    var pieces := Split(requiredProduct, ',');
    seq(|pieces|, k requires 0 <= k < |pieces| => Strip(pieces[k]))
  }

  /** The keywords of the rows whose product is one of `names`, in row order
      with duplicates kept: `df.loc[df["product"].isin(names), "keyword"]`. */
  function KeywordsOfProducts(names: seq<string>, table: seq<KeywordRule>): seq<string>
  {
    if table == [] then []
    else (if table[0].product in names then [table[0].keyword] else [])
         + KeywordsOfProducts(names, table[1..])
  }

  /** `_get_required_keyword` / `_get_required_kw`. */
  function RequiredKeyword(requiredProduct: string, table: seq<KeywordRule>): string {
    Join(KeywordsOfProducts(RequiredProducts(requiredProduct), table), "|")
  }

  /** A keyword is collected exactly when some row with one of the products has it. */
  lemma {:induction false} KeywordsOfProductsMembers(names: seq<string>, table: seq<KeywordRule>, w: string)
    ensures w in KeywordsOfProducts(names, table)
        <==> exists i :: 0 <= i < |table| && table[i].product in names && table[i].keyword == w
  {
    if table != [] {
      KeywordsOfProductsMembers(names, table[1..], w);
      if w in KeywordsOfProducts(names, table[1..]) {
        var i :| 0 <= i < |table[1..]| && table[1..][i].product in names && table[1..][i].keyword == w;
        assert table[i + 1] == table[1..][i];
      }
      if exists i :: 0 <= i < |table| && table[i].product in names && table[i].keyword == w {
        var i :| 0 <= i < |table| && table[i].product in names && table[i].keyword == w;
        if i > 0 {
          assert table[1..][i - 1] == table[i];
        }
      }
    }
  }

  /** The collected keywords follow the row order: a table split in two
      contributes the keywords of its first part, then those of its second. */
  lemma {:induction false} KeywordsOfProductsConcat(names: seq<string>, t1: seq<KeywordRule>, t2: seq<KeywordRule>)
    ensures KeywordsOfProducts(names, t1 + t2) == KeywordsOfProducts(names, t1) + KeywordsOfProducts(names, t2)
  {
    if t1 == [] {
      assert t1 + t2 == t2;
    } else {
      assert (t1 + t2)[0] == t1[0] && (t1 + t2)[1..] == t1[1..] + t2;
      KeywordsOfProductsConcat(names, t1[1..], t2);
    }
  }

  /** Two tables with the same products and keywords, row by row, give the
      same collected keywords: brands, required products and the resolved
      column are never read. */
  lemma {:induction false} KeywordsOfProductsFrame(names: seq<string>, t1: seq<KeywordRule>, t2: seq<KeywordRule>)
    requires |t1| == |t2|
    requires forall i :: 0 <= i < |t1| ==> t1[i].product == t2[i].product && t1[i].keyword == t2[i].keyword
    ensures KeywordsOfProducts(names, t1) == KeywordsOfProducts(names, t2)
  {
    if t1 != [] {
      KeywordsOfProductsFrame(names, t1[1..], t2[1..]);
    }
  }

  /** The resolved keyword depends only on the product and keyword columns. */
  lemma RequiredKeywordFrame(requiredProduct: string, t1: seq<KeywordRule>, t2: seq<KeywordRule>)
    requires |t1| == |t2|
    requires forall i :: 0 <= i < |t1| ==> t1[i].product == t2[i].product && t1[i].keyword == t2[i].keyword
    ensures RequiredKeyword(requiredProduct, t1) == RequiredKeyword(requiredProduct, t2)
  {
    KeywordsOfProductsFrame(RequiredProducts(requiredProduct), t1, t2);
  }

  /** The result is "" exactly when no keyword was collected or the only
      one collected is itself "". */
  lemma RequiredKeywordEmpty(requiredProduct: string, table: seq<KeywordRule>)
    ensures var ks := KeywordsOfProducts(RequiredProducts(requiredProduct), table);
            RequiredKeyword(requiredProduct, table) == "" <==> ks == [] || ks == [""]
  {
    JoinEmpty(KeywordsOfProducts(RequiredProducts(requiredProduct), table), "|");
  }

  /** With no empty keyword in the table, the result is "" exactly when no
      row's product is among the named products. */
  lemma RequiredKeywordEmptyIffNoProduct(requiredProduct: string, table: seq<KeywordRule>)
    requires forall i :: 0 <= i < |table| ==> table[i].keyword != ""
    ensures RequiredKeyword(requiredProduct, table) == ""
        <==> forall i :: 0 <= i < |table| ==> table[i].product !in RequiredProducts(requiredProduct)
  {
    var names := RequiredProducts(requiredProduct);
    var ks := KeywordsOfProducts(names, table);
    RequiredKeywordEmpty(requiredProduct, table);
    KeywordsOfProductsMembers(names, table, "");
    if ks != [] {
      KeywordsOfProductsMembers(names, table, ks[0]);
    }
    if exists i :: 0 <= i < |table| && table[i].product in names {
      var i :| 0 <= i < |table| && table[i].product in names;
      KeywordsOfProductsMembers(names, table, table[i].keyword);
    }
  }

  /** A blank `required_product` names only the empty product. */
  lemma BlankRequiredProduct(table: seq<KeywordRule>)
    ensures RequiredProducts("") == [""]
    ensures RequiredKeyword("", table) == Join(KeywordsOfProducts([""], table), "|")
  {
    assert Split("", ',') == [""];
    assert Strip("") == "";
  }

  /** Splitting the resolved keyword on "|" gives back the collected keywords
      when at least one was collected and none holds a "|". This is the list of
      alternatives the tagging regex tries. */
  lemma RequiredKeywordAlternatives(requiredProduct: string, table: seq<KeywordRule>)
    requires KeywordsOfProducts(RequiredProducts(requiredProduct), table) != []
    requires forall i :: 0 <= i < |table| ==> '|' !in table[i].keyword
    ensures Split(RequiredKeyword(requiredProduct, table), '|')
         == KeywordsOfProducts(RequiredProducts(requiredProduct), table)
  {
    var ks := KeywordsOfProducts(RequiredProducts(requiredProduct), table);
    forall k | 0 <= k < |ks| ensures '|' !in ks[k] {
      KeywordsOfProductsMembers(RequiredProducts(requiredProduct), table, ks[k]);
    }
    SplitJoin(ks, '|');
  }

  /** Row `i` with its required keyword resolved against the table:
      one step of the `for idx in df.index` loop. */
  function ResolveRow(table: seq<KeywordRule>, i: nat): seq<KeywordRule>
    requires i < |table|
  {
    table[i := table[i].(requiredKeyword := RequiredKeyword(table[i].requiredProduct, table))]
  }

  /** Every row resolved against the table as it was. */
  function ResolveAll(table: seq<KeywordRule>): (r: seq<KeywordRule>)
    ensures |r| == |table|
  {
    seq(|table|, i requires 0 <= i < |table| =>
      table[i].(requiredKeyword := RequiredKeyword(table[i].requiredProduct, table)))
  }

  /** Resolving a row leaves every row's product and keyword as they were. */
  lemma ResolveRowKeepsProducts(table: seq<KeywordRule>, i: nat)
    requires i < |table|
    ensures |ResolveRow(table, i)| == |table|
    ensures forall k :: 0 <= k < |table| ==>
      ResolveRow(table, i)[k].product == table[k].product
      && ResolveRow(table, i)[k].keyword == table[k].keyword
  {
  }

  /** The fill loop's steps commute: resolving rows in either order gives the
      same table. */
  lemma ResolveRowsCommute(table: seq<KeywordRule>, i: nat, j: nat)
    requires i < |table| && j < |table|
    ensures ResolveRow(ResolveRow(table, i), j) == ResolveRow(ResolveRow(table, j), i)
  {
    ResolveRowKeepsProducts(table, i);
    ResolveRowKeepsProducts(table, j);
    RequiredKeywordFrame(table[j].requiredProduct, ResolveRow(table, i), table);
    RequiredKeywordFrame(table[i].requiredProduct, ResolveRow(table, j), table);
  }

  /** Re-running the fill on a resolved table changes nothing. */
  lemma ResolveAllIdempotent(table: seq<KeywordRule>)
    ensures ResolveAll(ResolveAll(table)) == ResolveAll(table)
  {
    var r := ResolveAll(table);
    forall k | 0 <= k < |table|
      ensures RequiredKeyword(r[k].requiredProduct, r) == RequiredKeyword(table[k].requiredProduct, table)
    {
      RequiredKeywordFrame(table[k].requiredProduct, r, table);
    }
  }

  /** The fill loop of `get_keyword_df`, in place over the table. Each row
      reads the table as the loop left it; since the loop writes only the
      resolved column, the outcome is every row resolved against the
      original table. */
  method FillRequiredKeywords(a: array<KeywordRule>)
    modifies a
    ensures a[..] == ResolveAll(old(a[..]))
  {
    ghost var original := a[..];
    for i := 0 to a.Length
      invariant forall k :: 0 <= k < a.Length ==>
        a[k].product == original[k].product && a[k].keyword == original[k].keyword
      invariant forall k :: 0 <= k < i ==> a[k] == ResolveAll(original)[k]
      invariant forall k :: i <= k < a.Length ==> a[k] == original[k]
    {
      RequiredKeywordFrame(a[i].requiredProduct, a[..], original);
      a[i] := a[i].(requiredKeyword := RequiredKeyword(a[i].requiredProduct, a[..]));
    }
  }

  /** `get_keyword_df` after validation: the header column is built, the
      resolved column starts as "" and then every row's required products
      are resolved against the whole table. */
  method BuildKeywordTable(rows: seq<RawRule>) returns (table: seq<KeywordRule>)
    ensures |table| == |rows|
    ensures forall i :: 0 <= i < |rows| ==>
      && table[i].brand == rows[i].brand
      && table[i].product == rows[i].product
      && table[i].keyword == rows[i].keyword
      && table[i].requiredProduct == rows[i].requiredProduct
      && table[i].header == rows[i].brand + "_" + rows[i].product
    ensures forall i :: 0 <= i < |rows| ==>
      table[i].requiredKeyword == RequiredKeyword(rows[i].requiredProduct, table)
  {
    var a := new KeywordRule[|rows|](i requires 0 <= i < |rows| =>
      var r := rows[i];
      KeywordRule(r.brand, r.product, r.keyword, r.requiredProduct, "", Header(r.brand, r.product)));
    ghost var before := a[..];
    FillRequiredKeywords(a);
    table := a[..];
    forall i | 0 <= i < |rows|
      ensures table[i].requiredKeyword == RequiredKeyword(rows[i].requiredProduct, table)
    {
      RequiredKeywordFrame(rows[i].requiredProduct, table, before);
    }
  }
}
