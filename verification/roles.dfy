/** Column roles of the flexible charts page: each logical role (date,
    product, category, customer, total value, price, quantity) is either a
    column name of the loaded table or the "(nenhuma)" sentinel. The initial
    choice of each role comes from a fixed, ordered alias list, matched
    exactly against the header.
 */
module Roles {
  import opened Cells

  /** The "no column" entry, always first in every role's option list. */
  const NoColumn: string := "(nenhuma)"

  const DateAliases: seq<string> := ["data", "Data", "data_venda", "data_pedido"]
  const ProductAliases: seq<string> := ["produto", "Produto", "product"]
  const CategoryAliases: seq<string> := ["categoria", "Categoria", "category"]
  const CustomerAliases: seq<string> := ["cliente", "Cliente", "customer"]
  const TotalAliases: seq<string> := ["valor_total", "Valor_Total", "valor", "total"]
  const PriceAliases: seq<string> := ["preco", "Preço", "price"]
  const QuantityAliases: seq<string> := ["quantidade", "Quantidade", "qtd", "qty"]

  /** The column chosen for each role (NoColumn when none). */
  datatype Mapping = Mapping(
    date: string,
    product: string,
    category: string,
    customer: string,
    total: string,
    price: string,
    quantity: string)

  /** Every role names a header column or the sentinel, as the selectboxes
      guarantee. */
  predicate ValidMapping(cols: seq<string>, m: Mapping)
  {
    && (m.date == NoColumn || m.date in cols)
    && (m.product == NoColumn || m.product in cols)
    && (m.category == NoColumn || m.category in cols)
    && (m.customer == NoColumn || m.customer in cols)
    && (m.total == NoColumn || m.total in cols)
    && (m.price == NoColumn || m.price in cols)
    && (m.quantity == NoColumn || m.quantity in cols)
  }

  /** `_suggest`: the first option, in list order, that is a column. */
  function Suggest(cols: seq<string>, options: seq<string>): (r: Option<string>)
    ensures r.None? <==> forall j :: 0 <= j < |options| ==> options[j] !in cols
    ensures r.Some? ==> r.value in cols
    ensures r.Some? ==> exists k :: 0 <= k < |options| && options[k] == r.value
                                    && forall j :: 0 <= j < k ==> options[j] !in cols
    decreases |options|
  {
    if |options| == 0 then None
    else if options[0] in cols then Some(options[0])
    else
      var r := Suggest(cols, options[1..]);
      assert forall j :: 0 < j < |options| ==> options[j] == options[1..][j - 1];
      if r.Some? then
        var k :| 0 <= k < |options[1..]| && options[1..][k] == r.value
                 && forall j :: 0 <= j < k ==> options[1..][j] !in cols;
        assert options[k + 1] == r.value;
        r
      else r
  }

  /** Python `list.index`: the first position holding `x`. */
  function IndexOf(xs: seq<string>, x: string): (k: nat)
    requires x in xs
    ensures k < |xs| && xs[k] == x
    ensures forall j :: 0 <= j < k ==> xs[j] != x
  {
    if xs[0] == x then 0 else 1 + IndexOf(xs[1..], x)
  }

  /** A role's option list: the sentinel, then the header. */
  function Options(cols: seq<string>): seq<string>
  {
    [NoColumn] + cols
  }

  /** The selectbox's initial index: where `_suggest(...) or "(nenhuma)"`
      sits in the option list (an empty suggestion is falsy, like None). */
  function DefaultIndex(cols: seq<string>, aliases: seq<string>): (k: nat)
    ensures k < |Options(cols)|
  {
    var s := Suggest(cols, aliases);
    var choice := if s.None? || s.value == "" then NoColumn else s.value;
    assert choice in Options(cols);
    IndexOf(Options(cols), choice)
  }

  /** The role's initial choice: the suggestion when there is one, otherwise
      the sentinel; a chosen column is always a header column. */
  lemma DefaultChoice(cols: seq<string>, aliases: seq<string>)
    requires NoColumn !in aliases && "" !in aliases
    ensures var k := DefaultIndex(cols, aliases);
            var s := Suggest(cols, aliases);
            && (k == 0 <==> s.None?)
            && (s.Some? ==> Options(cols)[k] == s.value && cols[k - 1] == s.value)
            && (s.None? ==> Options(cols)[k] == NoColumn)
  {
    var s := Suggest(cols, aliases);
    if s.Some? {
      var k :| 0 <= k < |aliases| && aliases[k] == s.value
               && forall j :: 0 <= j < k ==> aliases[j] !in cols;
      assert s.value != NoColumn;
    }
  }

  /** The initial choice of one role. */
  function DefaultRole(cols: seq<string>, aliases: seq<string>): (c: string)
    ensures c == NoColumn || c in cols
  {
    Options(cols)[DefaultIndex(cols, aliases)]
  }

  /** The mapping shown before the user changes any selectbox. */
  function Suggested(cols: seq<string>): (m: Mapping)
    ensures ValidMapping(cols, m)
  {
    Mapping(
      DefaultRole(cols, DateAliases),
      DefaultRole(cols, ProductAliases),
      DefaultRole(cols, CategoryAliases),
      DefaultRole(cols, CustomerAliases),
      DefaultRole(cols, TotalAliases),
      DefaultRole(cols, PriceAliases),
      DefaultRole(cols, QuantityAliases))
  }

  /** The role's initial choice as a name: the suggestion, or the sentinel. */
  function SuggestOrNone(s: Option<string>): string
  {
    if s.Some? then s.value else NoColumn
  }

  /** No alias list offers the sentinel or the empty name. */
  lemma AliasesAreNames()
    ensures NoColumn !in DateAliases && "" !in DateAliases
    ensures NoColumn !in ProductAliases && "" !in ProductAliases
    ensures NoColumn !in CategoryAliases && "" !in CategoryAliases
    ensures NoColumn !in CustomerAliases && "" !in CustomerAliases
    ensures NoColumn !in TotalAliases && "" !in TotalAliases
    ensures NoColumn !in PriceAliases && "" !in PriceAliases
    ensures NoColumn !in QuantityAliases && "" !in QuantityAliases
  {
  }

  /** Each role of the initial mapping is the first of its aliases present
      in the header, or the sentinel when none is. */
  lemma SuggestedRoles(cols: seq<string>)
    ensures var m := Suggested(cols);
            && m.date == SuggestOrNone(Suggest(cols, DateAliases))
            && m.product == SuggestOrNone(Suggest(cols, ProductAliases))
            && m.category == SuggestOrNone(Suggest(cols, CategoryAliases))
            && m.customer == SuggestOrNone(Suggest(cols, CustomerAliases))
            && m.total == SuggestOrNone(Suggest(cols, TotalAliases))
            && m.price == SuggestOrNone(Suggest(cols, PriceAliases))
            && m.quantity == SuggestOrNone(Suggest(cols, QuantityAliases))
  {
    AliasesAreNames();
    DefaultRoleIsSuggestion(cols, DateAliases);
    DefaultRoleIsSuggestion(cols, ProductAliases);
    DefaultRoleIsSuggestion(cols, CategoryAliases);
    DefaultRoleIsSuggestion(cols, CustomerAliases);
    DefaultRoleIsSuggestion(cols, TotalAliases);
    DefaultRoleIsSuggestion(cols, PriceAliases);
    DefaultRoleIsSuggestion(cols, QuantityAliases);
  }

  /** The initial choice of a role whose aliases are genuine names is its
      suggestion, or the sentinel. */
  lemma DefaultRoleIsSuggestion(cols: seq<string>, aliases: seq<string>)
    requires NoColumn !in aliases && "" !in aliases
    ensures DefaultRole(cols, aliases) == SuggestOrNone(Suggest(cols, aliases))
  {
    DefaultChoice(cols, aliases);
  }

  /** The header of the worked example below. */
  const ExampleHeader: seq<string> := ["Data", "Produto", "Total"]

  lemma ExampleDate()
    ensures Suggest(ExampleHeader, DateAliases) == Some("Data")
  {
    assert "data" !in ExampleHeader;
    assert DateAliases[1..][0] == "Data";
  }

  lemma ExampleProduct()
    ensures Suggest(ExampleHeader, ProductAliases) == Some("Produto")
  {
    assert "produto" !in ExampleHeader;
    assert ProductAliases[1..][0] == "Produto";
  }

  lemma ExampleTotal()
    ensures Suggest(ExampleHeader, TotalAliases).None?
  {
    assert forall j :: 0 <= j < |TotalAliases| ==> TotalAliases[j] !in ExampleHeader;
  }

  /** Matching is exact and case-sensitive: with header Data, Produto, Total
      the date and product roles are found, but no total alias is spelled
      "Total", so the total role starts unmapped. */
  lemma SuggestedExample()
    ensures var m := Suggested(ExampleHeader);
            m.date == "Data" && m.product == "Produto" && m.total == NoColumn
  {
    SuggestedRoles(ExampleHeader);
    ExampleDate();
    ExampleProduct();
    ExampleTotal();
  }
}
