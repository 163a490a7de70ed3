/** The `extract_tags` template filter: the names of a note's tags that are
    at most 10 characters long, at most 5 of them, in the relation's order. */
module CustomFilters {

  const MaxShownTags: int := 5
  const MaxShownNameLength: int := 10

  predicate IsShort(name: string) {
    |name| <= MaxShownNameLength
  }

  /** `a` can be obtained from `b` by deleting elements. */
  predicate IsSubsequence(a: seq<string>, b: seq<string>)
    decreases |b|
  {
    if a == [] then true
    else if b == [] then false
    else if a[0] == b[0] then IsSubsequence(a[1..], b[1..])
    else IsSubsequence(a, b[1..])
  }

  /** `[name for name in names if len(name) <= 10]`. */
  function ShortNames(names: seq<string>): (r: seq<string>)
    ensures forall i :: 0 <= i < |r| ==> IsShort(r[i])
    ensures forall x :: x in r <==> x in names && IsShort(x)
    ensures IsSubsequence(r, names)
    ensures |r| <= |names|
    ensures forall x :: multiset(r)[x] == if IsShort(x) then multiset(names)[x] else 0
  {
    if names == [] then []
    else
      assert names == [names[0]] + names[1..];
      if IsShort(names[0]) then [names[0]] + ShortNames(names[1..])
      else ShortNames(names[1..])
  }

  /** `extract_tags`: the filtered names cut to the first five. */
  function ExtractTags(names: seq<string>): (r: seq<string>)
    ensures |r| <= MaxShownTags
    ensures forall i :: 0 <= i < |r| ==> IsShort(r[i])
    ensures IsSubsequence(r, names)
    ensures |ShortNames(names)| <= MaxShownTags ==> r == ShortNames(names)
    ensures |ShortNames(names)| > MaxShownTags ==> |r| == MaxShownTags
    ensures r == ShortNames(names)[..|r|]
  {
    var short := ShortNames(names);
    if |short| <= MaxShownTags then short
    else
      ShortPrefixIsSubsequence(names, MaxShownTags);
      short[..MaxShownTags]
  }

  lemma {:induction false} ShortPrefixIsSubsequence(names: seq<string>, k: nat)
    requires k <= |ShortNames(names)|
    ensures IsSubsequence(ShortNames(names)[..k], names)
  {
    var short := ShortNames(names);
    if k == 0 || names == [] {
    } else if IsShort(names[0]) {
      var rest := ShortNames(names[1..]);
      assert short == [names[0]] + rest;
      ShortPrefixIsSubsequence(names[1..], k - 1);
      assert short[..k][0] == names[0];
      assert short[..k][1..] == rest[..k - 1];
    } else {
      assert short == ShortNames(names[1..]);
      ShortPrefixIsSubsequence(names[1..], k);
      assert !IsShort(names[0]) && IsShort(short[..k][0]);
    }
  }

  lemma {:induction false} ShortNamesKeepsShortList(names: seq<string>)
    requires forall i :: 0 <= i < |names| ==> IsShort(names[i])
    ensures ShortNames(names) == names
  {
    if names != [] {
      ShortNamesKeepsShortList(names[1..]);
    }
  }

  /** Applying the filter to its own output changes nothing. */
  lemma ExtractTagsIdempotent(names: seq<string>)
    ensures ExtractTags(ExtractTags(names)) == ExtractTags(names)
  {
    ShortNamesKeepsShortList(ExtractTags(names));
  }
}
