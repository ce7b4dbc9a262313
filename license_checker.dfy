/**
 * licenseChecker: list every SKU the commerce pager yields and report, for the selected part
 * numbers, how many units remain. The pager is a finite sequence of page outcomes, in the
 * order `NextPage` returns them while `More` holds.
 */
module LicenseChecker {
  import opened Wrappers

  /** One SKU entry of a page; capacities are modelled as integers. */
  datatype Sku = Sku(name: string, capacity: int, usedCapacity: int)

  /** One row of the printed JSON array. */
  datatype SkuAvailability = SkuAvailability(skuPartNumber: string, remainingUnits: int)

  /** The outcome of one `pager.NextPage` call. */
  datatype PageOutcome = PageError(message: string) | Page(value: seq<Sku>)

  // ---------------------------------------------------------------------------
  // Selection

  /** `contains`: a scan for an equal element. */
  function Contains(slice: seq<string>, str: string): (b: bool)
    ensures b <==> str in slice
    ensures b ==> exists i | 0 <= i < |slice| :: slice[i] == str
  {
    if |slice| == 0 then false
    else if slice[0] == str then true
    else Contains(slice[1..], str)
  }

  /** The argument list that selects every SKU: exactly one argument, `*`. */
  predicate IsWildcard(skuPartNumbers: seq<string>)
    ensures IsWildcard(skuPartNumbers) <==> skuPartNumbers == ["*"]
  {
    |skuPartNumbers| == 1 && skuPartNumbers[0] == "*"
  }

  /** `shouldIncludeSku`. */
  predicate ShouldIncludeSku(skuPartNumbers: seq<string>, skuPartNumber: string)
    ensures ShouldIncludeSku(skuPartNumbers, skuPartNumber) <==> skuPartNumbers == ["*"] || skuPartNumber in skuPartNumbers
  {
    IsWildcard(skuPartNumbers) || Contains(skuPartNumbers, skuPartNumber)
  }

  /** The wildcard selects every name; otherwise a name is selected iff it is one of the arguments. */
  lemma SelectionRule(skuPartNumbers: seq<string>, name: string)
    ensures IsWildcard(skuPartNumbers) ==> ShouldIncludeSku(skuPartNumbers, name)
    ensures !IsWildcard(skuPartNumbers) ==> (ShouldIncludeSku(skuPartNumbers, name) <==> name in skuPartNumbers)
  {
  }

  /** A `*` among several arguments is not a wildcard: it selects only a SKU literally named `*`. */
  lemma StarAmongOthersIsLiteral(other: string, name: string)
    ensures ShouldIncludeSku(["*", other], name) <==> name == "*" || name == other
  {
    assert ["*", other][1..] == [other];
  }

  // ---------------------------------------------------------------------------
  // Paging

  /** The reported row of one SKU. */
  function Availability(sku: Sku): (a: SkuAvailability)
    ensures a.skuPartNumber == sku.name
    ensures a.remainingUnits == sku.capacity - sku.usedCapacity
  {
    SkuAvailability(sku.name, sku.capacity - sku.usedCapacity)
  }

  /** The rows of the selected SKUs of one page, in page order. */
  function Selected(skuPartNumbers: seq<string>, skus: seq<Sku>): (r: seq<SkuAvailability>)
    ensures |r| <= |skus|
    decreases |skus|
  {
    if |skus| == 0 then []
    else
      var last := skus[|skus| - 1];
      Selected(skuPartNumbers, skus[..|skus| - 1])
      + (if ShouldIncludeSku(skuPartNumbers, last.name) then [Availability(last)] else [])
  }

  /** The SKUs of every page, in page order and within-page order. */
  function AllSkus(pages: seq<PageOutcome>): seq<Sku>
    requires forall i | 0 <= i < |pages| :: pages[i].Page?
    decreases |pages|
  {
    if |pages| == 0 then [] else AllSkus(pages[..|pages| - 1]) + pages[|pages| - 1].value
  }

  predicate NoPageError(pages: seq<PageOutcome>) {
    forall i | 0 <= i < |pages| :: pages[i].Page?
  }

  /** The index of the first failed page, when there is one. */
  function FirstPageError(pages: seq<PageOutcome>): (k: nat)
    requires !NoPageError(pages)
    ensures k < |pages| && pages[k].PageError?
    ensures forall i | 0 <= i < k :: pages[i].Page?
  {
    if pages[0].PageError? then 0
    else
      assert !NoPageError(pages[1..]) by {
        var i :| 0 <= i < |pages| && !pages[i].Page?;
        assert pages[1..][i - 1] == pages[i];
      }
      var k := FirstPageError(pages[1..]);
      assert forall i | 1 <= i < k + 1 :: pages[i] == pages[1..][i - 1];
      k + 1
  }

  /** A failed page preceded only by good pages is the first failed page. */
  lemma FirstPageErrorIsUnique(pages: seq<PageOutcome>, p: nat)
    requires p < |pages| && pages[p].PageError?
    requires forall i | 0 <= i < p :: pages[i].Page?
    ensures !NoPageError(pages) && FirstPageError(pages) == p
  {
  }

  /** Selection distributes over concatenation of SKU lists. */
  lemma {:induction false} SelectedAppend(skuPartNumbers: seq<string>, a: seq<Sku>, b: seq<Sku>)
    ensures Selected(skuPartNumbers, a + b) == Selected(skuPartNumbers, a) + Selected(skuPartNumbers, b)
    decreases |b|
  {
    if |b| == 0 {
      assert a + b == a;
    } else {
      var n := |b| - 1;
      assert (a + b)[..|a + b| - 1] == a + b[..n];
      assert (a + b)[|a + b| - 1] == b[n];
      SelectedAppend(skuPartNumbers, a, b[..n]);
    }
  }

  /**
   * Exactly the selected SKUs are reported: a row is in the result iff some SKU with its name
   * passes the selection and has that many remaining units.
   */
  lemma {:induction false} SelectedMembership(skuPartNumbers: seq<string>, skus: seq<Sku>, row: SkuAvailability)
    ensures row in Selected(skuPartNumbers, skus) <==>
      exists i | 0 <= i < |skus| :: ShouldIncludeSku(skuPartNumbers, skus[i].name) && Availability(skus[i]) == row
    decreases |skus|
  {
    if |skus| > 0 {
      var n := |skus| - 1;
      SelectedMembership(skuPartNumbers, skus[..n], row);
      if exists i | 0 <= i < n :: ShouldIncludeSku(skuPartNumbers, skus[..n][i].name) && Availability(skus[..n][i]) == row {
        var i :| 0 <= i < n && ShouldIncludeSku(skuPartNumbers, skus[..n][i].name) && Availability(skus[..n][i]) == row;
        assert skus[i] == skus[..n][i];
      }
      if exists i | 0 <= i < |skus| :: ShouldIncludeSku(skuPartNumbers, skus[i].name) && Availability(skus[i]) == row {
        var i :| 0 <= i < |skus| && ShouldIncludeSku(skuPartNumbers, skus[i].name) && Availability(skus[i]) == row;
        if i < n { assert skus[..n][i] == skus[i]; }
      }
    }
  }

  /** With the wildcard, every SKU is reported, one row each, in order. */
  lemma {:induction false} WildcardReportsEverySku(skus: seq<Sku>)
    ensures |Selected(["*"], skus)| == |skus|
    ensures forall i | 0 <= i < |skus| :: Selected(["*"], skus)[i] == Availability(skus[i])
    decreases |skus|
  {
    if |skus| > 0 {
      WildcardReportsEverySku(skus[..|skus| - 1]);
    }
  }

  /** One more SKU of a page: its row, if selected, follows the rows before it. */
  lemma SelectedStep(skuPartNumbers: seq<string>, skus: seq<Sku>, j: nat)
    requires j < |skus|
    ensures Selected(skuPartNumbers, skus[..j + 1]) == Selected(skuPartNumbers, skus[..j])
      + (if ShouldIncludeSku(skuPartNumbers, skus[j].name) then [Availability(skus[j])] else [])
  {
    assert skus[..j + 1][..j] == skus[..j];
  }

  /** One more good page: its selected rows follow those of the pages before it. */
  lemma PageStep(skuPartNumbers: seq<string>, pages: seq<PageOutcome>, p: nat)
    requires p < |pages| && NoPageError(pages[..p]) && pages[p].Page?
    ensures NoPageError(pages[..p + 1])
    ensures Selected(skuPartNumbers, AllSkus(pages[..p + 1]))
      == Selected(skuPartNumbers, AllSkus(pages[..p])) + Selected(skuPartNumbers, pages[p].value)
  {
    assert pages[..p + 1][..p] == pages[..p];
    assert AllSkus(pages[..p + 1]) == AllSkus(pages[..p]) + pages[p].value;
    SelectedAppend(skuPartNumbers, AllSkus(pages[..p]), pages[p].value);
  }

  /**
   * `getSkuAvailabilities`: walk the pages; a page error discards what was gathered and
   * returns the wrapped error; otherwise the selected rows of every page, in order.
   */
  method GetSkuAvailabilities(skuPartNumbers: seq<string>, pages: seq<PageOutcome>)
    returns (r: Result<seq<SkuAvailability>, string>)
    ensures r.Ok? <==> NoPageError(pages)
    ensures r.Ok? ==> r.value == Selected(skuPartNumbers, AllSkus(pages))
    ensures r.Err? ==> r.error == "failed to list SKUs: " + pages[FirstPageError(pages)].message
  {
    var availabilities: seq<SkuAvailability> := [];
    var p := 0;
    while p < |pages|
      invariant 0 <= p <= |pages|
      invariant NoPageError(pages[..p])
      invariant availabilities == Selected(skuPartNumbers, AllSkus(pages[..p]))
    {
      var page := pages[p];
      if page.PageError? {
        assert !NoPageError(pages);
        FirstPageErrorIsUnique(pages, p);
        return Err("failed to list SKUs: " + page.message);
      }
      ghost var before := availabilities;
      for j := 0 to |page.value|
        invariant availabilities == before + Selected(skuPartNumbers, page.value[..j])
      {
        var sku := page.value[j];
        SelectedStep(skuPartNumbers, page.value, j);
        if ShouldIncludeSku(skuPartNumbers, sku.name) {
          var remaining := sku.capacity - sku.usedCapacity;
          availabilities := availabilities + [SkuAvailability(sku.name, remaining)];
        }
      }
      assert page.value[..|page.value|] == page.value;
      PageStep(skuPartNumbers, pages, p);
      p := p + 1;
    }
    assert pages[..p] == pages;
    r := Ok(availabilities);
  }

  /** Every reported row carries the capacity left over on a selected SKU of some page. */
  lemma ReportedRowsComeFromSelectedSkus(skuPartNumbers: seq<string>, pages: seq<PageOutcome>, row: SkuAvailability)
    requires NoPageError(pages)
    requires row in Selected(skuPartNumbers, AllSkus(pages))
    ensures exists sku | sku in AllSkus(pages) ::
      ShouldIncludeSku(skuPartNumbers, sku.name) && row.skuPartNumber == sku.name
      && row.remainingUnits == sku.capacity - sku.usedCapacity
  {
    SelectedMembership(skuPartNumbers, AllSkus(pages), row);
    var i :| 0 <= i < |AllSkus(pages)| && ShouldIncludeSku(skuPartNumbers, AllSkus(pages)[i].name)
      && Availability(AllSkus(pages)[i]) == row;
    assert AllSkus(pages)[i] in AllSkus(pages);
  }
}
