/** The logic of routes/productRoutes.js that is more than database calls:
    the title-to-slug normalisation and the regular-expression escape of
    GET `/title/:title`, the slug backfill on the found product, the
    comma splitting of `sizes`/`colors` in POST `/`, and the paging
    arithmetic of GET `/`. Characters are ASCII: `toLowerCase` is modelled on
    'A'..'Z' only. */
module ProductRoutes {
  import opened Common

  // =====================================================================
  // Slug: toLowerCase, /[^a-z0-9]+/g -> '-', /^-+|-+$/g -> '', /-+/g -> '-'
  // =====================================================================

  predicate IsAlnum(c: char) {
    'a' <= c <= 'z' || '0' <= c <= '9'
  }

  function LowerChar(c: char): (d: char)
    ensures 'A' <= c <= 'Z' ==> 'a' <= d <= 'z'
    ensures !('A' <= c <= 'Z') ==> d == c
  {
    if 'A' <= c <= 'Z' then (c as int - 'A' as int + 'a' as int) as char else c
  }

  /** `toLowerCase()` on ASCII text. */
  function LowerAscii(s: string): (r: string)
    ensures |r| == |s|
    ensures forall i :: 0 <= i < |s| ==> r[i] == LowerChar(s[i])
  {
    if s == [] then [] else [LowerChar(s[0])] + LowerAscii(s[1..])
  }

  /** The string after its leading run of characters outside [a-z0-9]. */
  function DropNonAlnum(s: string): (r: string)
    ensures |r| <= |s| && r == s[|s| - |r|..]
    ensures r != [] ==> IsAlnum(r[0])
    ensures forall i :: 0 <= i < |s| - |r| ==> !IsAlnum(s[i])
  {
    if s == [] || IsAlnum(s[0]) then s else DropNonAlnum(s[1..])
  }

  /** A letter or digit in front keeps the slug-character shape. */
  lemma AlnumConsShape(c: char, t: string)
    requires IsAlnum(c) && SlugChars(t) && NoDoubleDash(t)
    ensures SlugChars([c] + t) && NoDoubleDash([c] + t)
  {
    assert forall i :: 0 <= i < |t| ==> ([c] + t)[i + 1] == t[i];
  }

  /** A dash in front of a string starting with a letter or digit keeps the
      slug-character shape. */
  lemma DashConsShape(t: string)
    requires SlugChars(t) && NoDoubleDash(t) && (t != [] ==> IsAlnum(t[0]))
    ensures SlugChars("-" + t) && NoDoubleDash("-" + t)
  {
    assert forall i :: 0 <= i < |t| ==> ("-" + t)[i + 1] == t[i];
  }

  /** `replace(/[^a-z0-9]+/g, '-')`: each maximal run of characters outside
      [a-z0-9] becomes a single '-'. */
  function DashRuns(s: string): (r: string)
    ensures SlugChars(r) && NoDoubleDash(r)
    ensures s != [] && IsAlnum(s[0]) ==> r != [] && r[0] == s[0]
    ensures s == [] <==> r == []
    decreases |s|
  {
    if s == [] then []
    else if IsAlnum(s[0]) then
      var t := DashRuns(s[1..]);
      AlnumConsShape(s[0], t);
      [s[0]] + t
    else
      var t := DashRuns(DropNonAlnum(s[1..]));
      DashConsShape(t);
      "-" + t
  }

  /** `replace(/^-+/, '')`: the string after its leading run of '-'. */
  function TrimLeading(s: string): (r: string)
    ensures |r| <= |s| && r == s[|s| - |r|..]
    ensures r != [] ==> r[0] != '-'
    ensures forall i :: 0 <= i < |s| - |r| ==> s[i] == '-'
  {
    if s != [] && s[0] == '-' then TrimLeading(s[1..]) else s
  }

  /** `replace(/-+$/, '')`. */
  function TrimTrailing(s: string): (r: string)
    ensures |r| <= |s| && r == s[..|r|]
    ensures r != [] ==> r[|r| - 1] != '-'
    ensures forall i :: |r| <= i < |s| ==> s[i] == '-'
  {
    if s != [] && s[|s| - 1] == '-' then TrimTrailing(s[..|s| - 1]) else s
  }

  /** `replace(/^-+|-+$/g, '')`. */
  function TrimDashes(s: string): string {
    TrimTrailing(TrimLeading(s))
  }

  /** `replace(/-+/g, '-')`. */
  function CollapseDashes(s: string): string
    decreases |s|
  {
    if s == [] then []
    else if s[0] == '-' then "-" + CollapseDashes(TrimLeading(s[1..]))
    else [s[0]] + CollapseDashes(s[1..])
  }

  /** The search slug computed from a decoded title. */
  function Slug(title: string): string {
    CollapseDashes(TrimDashes(DashRuns(LowerAscii(title))))
  }

  predicate SlugChars(s: string) {
    forall i :: 0 <= i < |s| ==> IsAlnum(s[i]) || s[i] == '-'
  }

  predicate NoDoubleDash(s: string) {
    forall i :: 0 <= i < |s| - 1 ==> s[i] == '-' ==> s[i + 1] != '-'
  }

  /** A well-formed slug: lower-case letters, digits and single dashes,
      with no dash at either end. */
  predicate IsSlug(s: string) {
    SlugChars(s) && NoDoubleDash(s) && (s != [] ==> s[0] != '-' && s[|s| - 1] != '-')
  }

  /** The letters and digits of a string, in order. */
  function AlnumOnly(s: string): (r: string)
    ensures |r| <= |s|
  {
    if s == [] then []
    else if IsAlnum(s[0]) then [s[0]] + AlnumOnly(s[1..])
    else AlnumOnly(s[1..])
  }

  // ---------------------------------------------------------------------
  // Slug lemmas
  // ---------------------------------------------------------------------

  lemma {:induction false} AlnumOnlyAppend(a: string, b: string)
    ensures AlnumOnly(a + b) == AlnumOnly(a) + AlnumOnly(b)
  {
    if a != [] {
      AlnumOnlyAppend(a[1..], b);
      assert (a + b)[1..] == a[1..] + b;
    } else {
      assert a + b == b;
    }
  }

  /** Removing characters outside [a-z0-9] from a string's ends loses no
      letter or digit. */
  lemma {:induction false} AlnumOnlyNoAlnumPrefix(s: string, k: nat)
    requires k <= |s| && forall i :: 0 <= i < k ==> !IsAlnum(s[i])
    ensures AlnumOnly(s[k..]) == AlnumOnly(s)
  {
    if k > 0 {
      AlnumOnlyNoAlnumPrefix(s[1..], k - 1);
      assert s[1..][k - 1..] == s[k..];
    }
  }

  lemma {:induction false} AlnumOnlyNoAlnumSuffix(s: string, k: nat)
    requires k <= |s| && forall i :: k <= i < |s| ==> !IsAlnum(s[i])
    ensures AlnumOnly(s[..k]) == AlnumOnly(s)
  {
    var head, tail := s[..k], s[k..];
    assert head + tail == s;
    AlnumOnlyAppend(head, tail);
    AlnumOnlyNoAlnumPrefix(tail, |tail|);
    assert tail[|tail|..] == [];
    assert AlnumOnly(tail) == [];
  }

  lemma {:induction false} DashRunsKeepsAlnum(s: string)
    ensures AlnumOnly(DashRuns(s)) == AlnumOnly(s)
    decreases |s|
  {
    if s == [] {
    } else if IsAlnum(s[0]) {
      DashRunsKeepsAlnum(s[1..]);
    } else {
      var t := DropNonAlnum(s[1..]);
      DashRunsKeepsAlnum(t);
      AlnumOnlyNoAlnumPrefix(s[1..], |s[1..]| - |t|);
    }
  }

  lemma {:induction false} CollapseKeepsAlnum(s: string)
    ensures AlnumOnly(CollapseDashes(s)) == AlnumOnly(s)
    decreases |s|
  {
    if s == [] {
    } else if s[0] == '-' {
      var t := TrimLeading(s[1..]);
      CollapseKeepsAlnum(t);
      AlnumOnlyNoAlnumPrefix(s[1..], |s[1..]| - |t|);
    } else {
      CollapseKeepsAlnum(s[1..]);
    }
  }

  /** On a string with no doubled dash, collapsing changes nothing: the
      last `replace` of the chain is redundant. */
  lemma {:induction false} CollapseIdentity(s: string)
    requires NoDoubleDash(s)
    ensures CollapseDashes(s) == s
    decreases |s|
  {
    if s != [] {
      CollapseIdentity(s[1..]);
      if s[0] == '-' {
        assert TrimLeading(s[1..]) == s[1..];
      }
    }
  }

  /** Slug characters without doubled dashes stay so in any slice. */
  lemma SliceKeepsShape(s: string, lo: nat, hi: nat)
    requires lo <= hi <= |s| && SlugChars(s) && NoDoubleDash(s)
    ensures SlugChars(s[lo..hi]) && NoDoubleDash(s[lo..hi])
  {
    var t := s[lo..hi];
    forall i | 0 <= i < |t|
      ensures IsAlnum(t[i]) || t[i] == '-'
    {
      assert t[i] == s[lo + i];
    }
    forall i | 0 <= i < |t| - 1
      ensures t[i] == '-' ==> t[i + 1] != '-'
    {
      assert t[i] == s[lo + i] && t[i + 1] == s[lo + i + 1];
    }
  }

  /** The trims leave a well-formed slug when given slug characters without
      doubled dashes. */
  lemma TrimIsSlug(s: string)
    requires SlugChars(s) && NoDoubleDash(s)
    ensures IsSlug(TrimDashes(s))
  {
    var a := TrimLeading(s);
    var b := TrimTrailing(a);
    SliceKeepsShape(s, |s| - |a|, |s|);
    SliceKeepsShape(a, 0, |b|);
    if b != [] {
      assert b[0] == a[0];
    }
  }

  /** The trims lose no letter or digit. */
  lemma TrimKeepsAlnum(s: string)
    ensures AlnumOnly(TrimDashes(s)) == AlnumOnly(s)
  {
    var a := TrimLeading(s);
    var b := TrimTrailing(a);
    AlnumOnlyNoAlnumPrefix(s, |s| - |a|);
    AlnumOnlyNoAlnumSuffix(a, |b|);
  }

  lemma TrimShape(s: string)
    requires SlugChars(s) && NoDoubleDash(s)
    ensures IsSlug(TrimDashes(s))
    ensures AlnumOnly(TrimDashes(s)) == AlnumOnly(s)
  {
    TrimIsSlug(s);
    TrimKeepsAlnum(s);
  }

  /** Every slug is well formed: only [a-z0-9-], no dash at either end,
      no two dashes in a row. */
  lemma SlugIsWellFormed(title: string)
    ensures IsSlug(Slug(title))
  {
    var d := DashRuns(LowerAscii(title));
    TrimShape(d);
    CollapseIdentity(TrimDashes(d));
  }

  /** A slug keeps exactly the letters and digits of the lower-cased title,
      in order; everything else is gone or became a single separating dash. */
  lemma SlugKeepsLettersAndDigits(title: string)
    ensures AlnumOnly(Slug(title)) == AlnumOnly(LowerAscii(title))
  {
    var d := DashRuns(LowerAscii(title));
    DashRunsKeepsAlnum(LowerAscii(title));
    TrimShape(d);
    CollapseKeepsAlnum(TrimDashes(d));
  }

  lemma {:induction false} DashRunsIdentity(s: string)
    requires SlugChars(s) && NoDoubleDash(s)
    ensures DashRuns(s) == s
    decreases |s|
  {
    if s != [] {
      if IsAlnum(s[0]) {
        DashRunsIdentity(s[1..]);
      } else {
        assert DropNonAlnum(s[1..]) == s[1..];
        DashRunsIdentity(s[1..]);
      }
    }
  }

  /** A well-formed slug is its own slug. */
  lemma SlugOfSlug(s: string)
    requires IsSlug(s)
    ensures Slug(s) == s
  {
    assert LowerAscii(s) == s;
    DashRunsIdentity(s);
    assert TrimLeading(s) == s;
    assert TrimTrailing(s) == s;
    CollapseIdentity(s);
  }

  /** Slugging is idempotent. */
  lemma SlugIdempotent(title: string)
    ensures Slug(Slug(title)) == Slug(title)
  {
    SlugIsWellFormed(title);
    SlugOfSlug(Slug(title));
  }

  // =====================================================================
  // Regular-expression escape: replace(/[-/\\^$*+?.()|[\]{}]/g, '\\$&')
  // =====================================================================

  /** The characters the escape prefixes with a backslash. */
  const RegexSpecials: string := "-/\\^$*+?.()|[]{}"

  /** Every character of `RegexSpecials` gets a backslash in front; every
      other character is copied unchanged. */
  function EscapeRegex(s: string): (r: string)
    ensures |r| >= |s|
    ensures forall c :: c !in RegexSpecials ==> (c in r <==> c in s)
  {
    if s == [] then []
    else if s[0] in RegexSpecials then ['\\', s[0]] + EscapeRegex(s[1..])
    else [s[0]] + EscapeRegex(s[1..])
  }

  /** Reads an escaped string back: a backslash and the character after it
      stand for that character. */
  function Unescape(r: string): string
    decreases |r|
  {
    if r == [] then []
    else if r[0] == '\\' && |r| >= 2 then [r[1]] + Unescape(r[2..])
    else [r[0]] + Unescape(r[1..])
  }

  /** Every special character of an escaped string is the second half of a
      backslash pair, so the pattern matches the text literally. */
  predicate AllSpecialsEscaped(r: string)
    decreases |r|
  {
    if r == [] then true
    else if r[0] == '\\' then |r| >= 2 && r[1] in RegexSpecials && AllSpecialsEscaped(r[2..])
    else r[0] !in RegexSpecials && AllSpecialsEscaped(r[1..])
  }

  /** The escape loses nothing: reading it back gives the title. */
  lemma {:induction false} UnescapeEscape(s: string)
    ensures Unescape(EscapeRegex(s)) == s
  {
    if s != [] {
      UnescapeEscape(s[1..]);
      if s[0] in RegexSpecials {
        assert (['\\', s[0]] + EscapeRegex(s[1..]))[2..] == EscapeRegex(s[1..]);
      } else {
        assert ([s[0]] + EscapeRegex(s[1..]))[1..] == EscapeRegex(s[1..]);
      }
    }
  }

  /** The escape leaves no special character unescaped. */
  lemma {:induction false} EscapeIsLiteral(s: string)
    ensures AllSpecialsEscaped(EscapeRegex(s))
  {
    if s != [] {
      EscapeIsLiteral(s[1..]);
      if s[0] in RegexSpecials {
        assert (['\\', s[0]] + EscapeRegex(s[1..]))[2..] == EscapeRegex(s[1..]);
      } else {
        assert ([s[0]] + EscapeRegex(s[1..]))[1..] == EscapeRegex(s[1..]);
      }
    }
  }

  /** The anchored, case-insensitive title pattern `^<escaped>$`. */
  function TitlePattern(decodedTitle: string): (p: string)
    ensures |p| >= 2 && p[0] == '^' && p[|p| - 1] == '$'
    ensures Unescape(p[1..|p| - 1]) == decodedTitle
  {
    UnescapeEscape(decodedTitle);
    var p := "^" + EscapeRegex(decodedTitle) + "$";
    assert p[1..|p| - 1] == EscapeRegex(decodedTitle);
    p
  }

  // =====================================================================
  // sizes / colors: Array.isArray(v) ? v : v.split(',')
  // =====================================================================

  /** A multipart form field: absent, one text value, or repeated values. */
  datatype FormValue = Absent | Text(text: string) | List(items: seq<string>)

  /** The stored list, or `None` when the field is absent: `undefined.split`
      throws and the create route answers 500. */
  function ListField(v: FormValue): (r: Option<seq<string>>)
    ensures v.Absent? <==> r.None?
    ensures v.List? ==> r == Some(v.items)
    ensures v.Text? ==> |r.value| >= 1 && forall i :: 0 <= i < |r.value| ==> ',' !in r.value[i]
  {
    match v
    case Absent => None
    case Text(s) => Some(Split(s, ','))
    case List(xs) => Some(xs)
  }

  /** Joining the pieces with commas gives the submitted text back. */
  lemma ListFieldOfText(s: string)
    ensures Join(ListField(Text(s)).value, ',') == s
  {
    JoinSplit(s, ',');
  }

  // =====================================================================
  // GET `/`: page, skip, totalPages, hasMore
  // =====================================================================

  const PageLimit: int := 100

  datatype PageInfo = PageInfo(currentPage: int, skip: int, totalPages: nat, hasMore: bool)

  /** `parseInt(req.query.page) || 1`, given the parse result (`None` for
      NaN): NaN and 0 fall back to 1. */
  function PageNumber(parsed: Option<int>): (p: int)
    ensures p != 0
    ensures parsed.Some? && parsed.value != 0 ==> p == parsed.value
    ensures parsed.None? ==> p == 1
  {
    match parsed
    case None => 1
    case Some(n) => if n == 0 then 1 else n
  }

  /** `Math.ceil(total / 100)`: the least page count covering `total`. */
  function TotalPages(total: nat): (n: nat)
    ensures n * PageLimit >= total
    ensures n > 0 ==> (n - 1) * PageLimit < total
  {
    (total + PageLimit - 1) / PageLimit
  }

  /** The paging fields of the reply, for `returned` products on the page
      out of `total` matching. */
  function Paginate(parsed: Option<int>, total: nat, returned: nat): (r: PageInfo)
    ensures r.currentPage == PageNumber(parsed)
    ensures r.skip == (r.currentPage - 1) * PageLimit
    ensures r.totalPages == TotalPages(total)
    ensures r.hasMore <==> r.skip + returned < total
  {
    var page := PageNumber(parsed);
    var skip := (page - 1) * PageLimit;
    PageInfo(page, skip, TotalPages(total), skip + returned < total)
  }

  /** How many products a page holds: the database skips `skip` of `total`
      and returns at most 100. */
  function PageSize(skip: nat, total: nat): (n: nat)
    ensures n <= PageLimit && (skip + n <= total || (n == 0 && skip >= total))
    ensures n == PageLimit || skip + n >= total
  {
    if skip >= total then 0 else if total - skip >= PageLimit then PageLimit else total - skip
  }

  /** With the database returning a full window, `hasMore` holds exactly on
      the pages before the last one. */
  lemma HasMoreIffBeforeLastPage(parsed: Option<int>, total: nat)
    requires PageNumber(parsed) >= 1
    ensures var p := PageNumber(parsed);
            var r := Paginate(parsed, total, PageSize((p - 1) * PageLimit, total));
            r.hasMore <==> p < r.totalPages
  {
    var p := PageNumber(parsed);
    var skip := (p - 1) * PageLimit;
    var n := TotalPages(total);
    if p < n {
      assert p <= n - 1;
      assert p * PageLimit <= (n - 1) * PageLimit;
    }
  }

  // =====================================================================
  // GET `/title/:title`: lookup and slug backfill
  // =====================================================================

  /** The fields of a product that the title lookup reads or writes. */
  datatype Product = Product(title: string, slug: Option<string>)

  /** The `$or` query: the slug equals the search slug, or the title equals
      the decoded title exactly, or up to ASCII case (the anchored,
      escaped, case-insensitive pattern). */
  predicate TitleQueryMatches(p: Product, decodedTitle: string) {
    p.slug == Some(Slug(decodedTitle)) || p.title == decodedTitle ||
    LowerAscii(p.title) == LowerAscii(decodedTitle)
  }

  /** `findOne` with that query: the first matching product. */
  function FindByTitle(ps: seq<Product>, decodedTitle: string): (r: Option<nat>)
    ensures r.Some? ==> r.value < |ps| && TitleQueryMatches(ps[r.value], decodedTitle)
    ensures r.Some? ==> forall j :: 0 <= j < r.value ==> !TitleQueryMatches(ps[j], decodedTitle)
    ensures r.None? <==> forall j :: 0 <= j < |ps| ==> !TitleQueryMatches(ps[j], decodedTitle)
  {
    var matches := p => TitleQueryMatches(p, decodedTitle);
    assert forall j :: 0 <= j < |ps| ==> matches(ps[j]) == TitleQueryMatches(ps[j], decodedTitle);
    FindFirst(ps, matches)
  }

  /** `!product.slug`. */
  predicate SlugMissing(p: Product) {
    p.slug.None? || p.slug == Some("")
  }

  /** The product after the backfill: the search slug is written only when
      its slug is missing. */
  function Backfilled(p: Product, searchSlug: string): (q: Product)
    ensures q.title == p.title
    ensures SlugMissing(p) ==> q.slug == Some(searchSlug)
    ensures !SlugMissing(p) ==> q == p
  {
    if SlugMissing(p) then p.(slug := Some(searchSlug)) else p
  }

  /** A matching product still matches after the backfill. */
  lemma BackfilledStillMatches(p: Product, decodedTitle: string)
    requires TitleQueryMatches(p, decodedTitle)
    ensures TitleQueryMatches(Backfilled(p, Slug(decodedTitle)), decodedTitle)
  {
    if SlugMissing(p) {
      assert Backfilled(p, Slug(decodedTitle)).slug == Some(Slug(decodedTitle));
    }
  }

  /** Looking the same title up again after the backfill is stable: the
      same product is found, and the backfill writes nothing more. */
  lemma {:induction false} SecondLookupIsStable(ps: seq<Product>, decodedTitle: string)
    requires FindByTitle(ps, decodedTitle).Some?
    ensures var k := FindByTitle(ps, decodedTitle).value;
            var ps' := ps[k := Backfilled(ps[k], Slug(decodedTitle))];
            FindByTitle(ps', decodedTitle) == Some(k) &&
            Backfilled(ps'[k], Slug(decodedTitle)) == ps'[k]
  {
    var k := FindByTitle(ps, decodedTitle).value;
    var q := Backfilled(ps[k], Slug(decodedTitle));
    var ps' := ps[k := q];
    BackfilledStillMatches(ps[k], decodedTitle);
    assert ps'[k] == q;
    assert forall j :: 0 <= j < k ==> ps'[j] == ps[j];
  }

  /** The reply of GET `/title/:title`. */
  datatype TitleReply = NotFound(searchedTitle: string) | Found(product: Product)

  class ProductStore {
    var products: seq<Product>

    constructor (initial: seq<Product>)
      ensures products == initial
    {
      products := initial;
    }

    /** GET `/title/:title` with the URI-decoded title: 404 when nothing
        matches; otherwise the found product, after writing the slug into
        it when it had none. */
    method LookupByTitle(decodedTitle: string) returns (reply: TitleReply)
      modifies this
      ensures FindByTitle(old(products), decodedTitle).None? ==>
                reply == NotFound(decodedTitle) && products == old(products)
      ensures FindByTitle(old(products), decodedTitle).Some? ==>
                var k := FindByTitle(old(products), decodedTitle).value;
                var q := Backfilled(old(products)[k], Slug(decodedTitle));
                reply == Found(q) && products == old(products)[k := q]
    {
      var found := FindByTitle(products, decodedTitle);
      if found.None? {
        return NotFound(decodedTitle);
      }
      var k := found.value;
      if SlugMissing(products[k]) {
        // `product.slug = searchSlug; await product.save()`
        products := products[k := Backfilled(products[k], Slug(decodedTitle))];
      }
      reply := Found(products[k]);
    }
  }
}
