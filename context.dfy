/** Product context for the prompt (`get_context`): the search results
    rendered as numbered text blocks in English or Khmer. */
module Context {
  import opened Common
  import opened Catalog

  datatype Language = English | Khmer

  /** The language a request's code selects: only `"km"` is Khmer, any other
      code (an unsupported one included) falls back to English. */
  function LanguageOf(code: string): (l: Language)
    ensures l == Khmer <==> code == "km"
  {
    if code == "km" then Khmer else English
  }

  // --- `str(i)` for the block numbers -----------------------------------

  function Digit(d: nat): (c: char)
    requires d < 10
    ensures '0' <= c <= '9'
  {
    ('0' as int + d) as char
  }

  predicate AllDigits(s: string)
  {
    forall i :: 0 <= i < |s| ==> '0' <= s[i] <= '9'
  }

  /** The decimal numeral of `n`, as Python's `str` writes it. */
  function Numeral(n: nat): (r: string)
    ensures |r| > 0 && AllDigits(r)
    ensures 0 < n ==> r[0] != '0'
    decreases n
  {
    if n < 10 then [Digit(n)] else Numeral(n / 10) + [Digit(n % 10)]
  }

  /** The value a string of decimal digits denotes. */
  function NumeralValue(s: string): nat
    requires AllDigits(s)
  {
    if s == [] then 0 else NumeralValue(s[..|s| - 1]) * 10 + (s[|s| - 1] as int - '0' as int)
  }

  /** Numbering is faithful: the numeral of `n` reads back as `n`. */
  lemma {:induction false} NumeralRoundTrip(n: nat)
    ensures NumeralValue(Numeral(n)) == n
    decreases n
  {
    if n >= 10 {
      NumeralRoundTrip(n / 10);
      var s := Numeral(n);
      assert s[..|s| - 1] == Numeral(n / 10);
    }
  }

  // --- the rendered text ------------------------------------------------

  const NoMatchEnglish: string :=
    "No specific products found matching your query. I can help with general education store questions."
  const NoMatchKhmer: string :=
    "មិនមានផលិតផលជាក់លាក់ត្រូវនឹងសំណើររបស់អ្នកទេ។ ខ្ញុំអាចជួយឆ្លើយសំណួរទូទៅអំពីហាងផ្គត់ផ្គង់អប់រំបាន។"
  const HeaderEnglish: string := "Relevant Education Products:\n"
  const HeaderKhmer: string := "ផលិតផលអប់រំពាក់ព័ន្ធ៖\n"

  /** The words that label a product's fields, per language. */
  datatype Labels = Labels(description: string, features: string, category: string, age: string,
                           price: string, stock: string, units: string)

  const LabelsEnglish: Labels :=
    Labels("Description: ", "Features: ", "Category: ", "Age: ", "Price: ", "Stock: ", " units")
  const LabelsKhmer: Labels :=
    Labels("ការពិពណ៌នា៖ ", "លក្ខណៈពិសេស៖ ", "ប្រភេទ៖ ", "អាយុ៖ ", "តម្លៃ៖ ", "ស្តុក៖ ", " ឯកតា")

  /** Returned when the search gives no products at all. */
  function NoMatchText(l: Language): string
  {
    match l
    case Khmer => NoMatchKhmer
    case English => NoMatchEnglish
  }

  /** The first line of a non-empty context. */
  function HeaderText(l: Language): string
  {
    match l
    case Khmer => HeaderKhmer
    case English => HeaderEnglish
  }

  function LabelsOf(l: Language): Labels
  {
    match l
    case Khmer => LabelsKhmer
    case English => LabelsEnglish
  }

  /** The concatenation of `parts`, in order. */
  function Join(parts: seq<string>): string
  {
    if parts == [] then "" else parts[0] + Join(parts[1..])
  }

  /** The pieces of the block for product `p` numbered `i`: the number, name
      and brand on the first line, then four indented lines of labelled
      fields, then an indented blank line. */
  function BlockParts(labels: Labels, i: nat, p: Product): seq<string>
  {
    [Numeral(i), ". ", p.name, " (", p.brand, ")\n   "]
    + [labels.description, p.description, "\n   "]
    + [labels.features, p.features, "\n   "]
    + [labels.category, p.category, " | ", labels.age, p.ageRange, "\n   "]
    + [labels.price, "$", p.price, " | ", labels.stock, p.stock, labels.units, "\n   \n"]
  }

  /** The block for product `p` numbered `i`. */
  function Block(labels: Labels, i: nat, p: Product): string
  {
    Join(BlockParts(labels, i, p))
  }

  lemma {:induction false} JoinContains(parts: seq<string>, k: nat)
    requires k < |parts|
    ensures IsInfix(parts[k], Join(parts))
  {
    if k == 0 {
      InfixOfConcat([], parts[0], Join(parts[1..]));
      assert [] + parts[0] + Join(parts[1..]) == Join(parts);
    } else {
      JoinContains(parts[1..], k - 1);
      var i :| 0 <= i <= |Join(parts[1..])| && parts[k] <= Join(parts[1..])[i..];
      assert Join(parts)[|parts[0]| + i..] == Join(parts[1..])[i..];
    }
  }

  /** A block carries every field of its product. */
  lemma BlockCarriesFields(labels: Labels, i: nat, p: Product)
    ensures var b := Block(labels, i, p);
            IsInfix(p.name, b) && IsInfix(p.brand, b) && IsInfix(p.description, b) && IsInfix(p.features, b)
            && IsInfix(p.category, b) && IsInfix(p.ageRange, b) && IsInfix(p.price, b) && IsInfix(p.stock, b)
  {
    var parts := BlockParts(labels, i, p);
    assert parts[2] == p.name && parts[4] == p.brand && parts[7] == p.description && parts[10] == p.features;
    assert parts[13] == p.category && parts[16] == p.ageRange && parts[20] == p.price && parts[23] == p.stock;
    forall k | k in [2, 4, 7, 10, 13, 16, 20, 23] ensures IsInfix(parts[k], Join(parts)) {
      JoinContains(parts, k);
    }
  }


  /** A join ends with the last character of its last part. */
  lemma {:induction false} JoinEndsWithLast(parts: seq<string>)
    requires parts != [] && parts[|parts| - 1] != ""
    ensures var j := Join(parts); var e := parts[|parts| - 1];
            j != "" && j[|j| - 1] == e[|e| - 1]
  {
    var j := Join(parts);
    assert j == parts[0] + Join(parts[1..]);
    if |parts| > 1 {
      var t := parts[1..];
      JoinEndsWithLast(t);
      assert t[|t| - 1] == parts[|parts| - 1];
    } else {
      assert j == parts[0] + "";
    }
  }

  /** A block ends with a line break. */
  lemma BlockEndsWithBreak(labels: Labels, i: nat, p: Product)
    ensures var b := Block(labels, i, p); b != "" && b[|b| - 1] == '\n'
  {
    JoinEndsWithLast(BlockParts(labels, i, p));
  }

  /** The block renderer of a language. */
  function Renderer(l: Language): (nat, Product) -> string
  {
    (i: nat, p: Product) => Block(LabelsOf(l), i, p)
  }

  /** The blocks `block(first, ps[0])`, `block(first + 1, ps[1])`, ... in order. */
  function Numbered(block: (nat, Product) -> string, ps: seq<Product>, first: nat): string
    decreases |ps|
  {
    if ps == [] then "" else block(first, ps[0]) + Numbered(block, ps[1..], first + 1)
  }

  /** What `get_context` returns for the products `ps`. */
  function ContextText(ps: seq<Product>, l: Language): string
  {
    if ps == [] then NoMatchText(l) else HeaderText(l) + Numbered(Renderer(l), ps, 1)
  }

  lemma {:induction false} NumberedSnoc(block: (nat, Product) -> string, ps: seq<Product>, p: Product, first: nat)
    ensures Numbered(block, ps + [p], first) == Numbered(block, ps, first) + block(first + |ps|, p)
    decreases |ps|
  {
    if ps == [] {
      assert Numbered(block, [p], first) == block(first, p) + Numbered(block, [], first + 1);
    } else {
      assert (ps + [p])[0] == ps[0] && (ps + [p])[1..] == ps[1..] + [p];
      NumberedSnoc(block, ps[1..], p, first + 1);
    }
  }

  lemma {:induction false} NumberedSplit(block: (nat, Product) -> string, ps: seq<Product>, k: nat, first: nat)
    requires k <= |ps|
    ensures Numbered(block, ps, first) == Numbered(block, ps[..k], first) + Numbered(block, ps[k..], first + k)
    decreases k
  {
    if k == 0 {
      assert ps[..0] == [] && ps[0..] == ps;
    } else {
      NumberedSplit(block, ps[1..], k - 1, first + 1);
      assert ps[..k][0] == ps[0] && ps[..k][1..] == ps[1..][..k - 1];
      assert ps[1..][k - 1..] == ps[k..];
    }
  }

  /** The `k`-th product (from 0) is rendered as block number `k + 1`, after
      the blocks of the products before it and before those after it: input
      order is kept and numbering starts at one. */
  lemma BlockAt(ps: seq<Product>, l: Language, k: nat)
    requires k < |ps|
    ensures ContextText(ps, l)
            == HeaderText(l) + (Numbered(Renderer(l), ps[..k], 1)
                                + (Block(LabelsOf(l), k + 1, ps[k]) + Numbered(Renderer(l), ps[k + 1..], k + 2)))
  {
    NumberedSplit(Renderer(l), ps, k, 1);
    var rest := ps[k..];
    assert rest[0] == ps[k] && rest[1..] == ps[k + 1..];
  }


  /** The no-match sentence comes back exactly for an empty product list: a
      listing ends with a line break, neither sentence does. */
  lemma NoMatchIffEmpty(ps: seq<Product>, l: Language)
    ensures ContextText(ps, l) == NoMatchText(l) <==> ps == []
  {
    if ps != [] {
      NumberedEndsWithBreak(ps, l);
      LastOfConcat(HeaderText(l), Numbered(Renderer(l), ps, 1));
      NoMatchEndsWithStop(l);
    }
  }

  /** A non-empty run of blocks ends with the line break of its last block. */
  lemma NumberedEndsWithBreak(ps: seq<Product>, l: Language)
    requires ps != []
    ensures var c := Numbered(Renderer(l), ps, 1); c != "" && c[|c| - 1] == '\n'
  {
    var n := |ps|;
    NumberedSnoc(Renderer(l), ps[..n - 1], ps[n - 1], 1);
    assert ps[..n - 1] + [ps[n - 1]] == ps;
    BlockEndsWithBreak(LabelsOf(l), n, ps[n - 1]);
    LastOfConcat(Numbered(Renderer(l), ps[..n - 1], 1), Block(LabelsOf(l), n, ps[n - 1]));
  }

  /** Each no-match sentence ends with its full stop. */
  lemma NoMatchEndsWithStop(l: Language)
    ensures var m := NoMatchText(l); m != "" && m[|m| - 1] != '\n'
  {
    assert NoMatchEnglish[97] == '.' && NoMatchKhmer[95] == '។';
  }

  /** One step of the rendering loop: appending block `i + 1`. */
  lemma AppendBlock(ps: seq<Product>, l: Language, i: nat)
    requires i < |ps|
    ensures HeaderText(l) + Numbered(Renderer(l), ps[..i], 1) + Block(LabelsOf(l), i + 1, ps[i])
            == HeaderText(l) + Numbered(Renderer(l), ps[..i + 1], 1)
  {
    NumberedSnoc(Renderer(l), ps[..i], ps[i], 1);
    ConcatAssoc(HeaderText(l), Numbered(Renderer(l), ps[..i], 1), Block(LabelsOf(l), i + 1, ps[i]));
    assert ps[..i + 1] == ps[..i] + [ps[i]];
  }

  /** The rendering loop of `get_context`. */
  method FormatContext(products: seq<Product>, l: Language) returns (context: string)
    ensures context == ContextText(products, l)
  {
    if products == [] {
      return NoMatchText(l);
    }
    var labels := LabelsOf(l);
    context := HeaderText(l);
    assert context == HeaderText(l) + Numbered(Renderer(l), products[..0], 1);
    var i := 0;
    while i < |products|
      invariant 0 <= i <= |products|
      invariant context == HeaderText(l) + Numbered(Renderer(l), products[..i], 1)
    {
      AppendBlock(products, l, i);
      context := context + Block(labels, i + 1, products[i]);
      i := i + 1;
    }
    assert products[..i] == products;
  }

  /** `get_context`: search, then render. Since the search always yields
      products, what comes back is always a product listing under its
      header, never the no-match sentence. */
  method GetContext(outcome: SearchOutcome, language: string) returns (context: string)
    ensures context == ContextText(SearchResults(outcome), LanguageOf(language))
    ensures HeaderText(LanguageOf(language)) <= context
    ensures context != NoMatchText(LanguageOf(language))
  {
    var products := SearchProducts(outcome);
    context := FormatContext(products, LanguageOf(language));
    NoMatchIffEmpty(products, LanguageOf(language));
  }
}
