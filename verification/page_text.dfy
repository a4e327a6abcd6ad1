/** Reading text out of a fetched page, shared word for word by both
    browser extensions (`extractText` and `extractTags`). The page itself
    is left out: a selector's query result is given as an element or
    nothing. */
module PageText {
  import opened Base
  import opened JsObject

  // ---------------------------------------------------------------------
  // First occurrences in order

  /** The index of the first occurrence of `x`. */
  function Pos<T(==)>(xs: seq<T>, x: T): (p: nat)
    requires x in xs
    ensures p < |xs| && xs[p] == x
    ensures forall k :: 0 <= k < p ==> xs[k] != x
  {
    if xs[0] == x then 0 else 1 + Pos(xs[1..], x)
  }

  /** The first occurrence is the only index with nothing equal before it. */
  lemma PosUnique<T>(xs: seq<T>, x: T, p: nat)
    requires p < |xs| && xs[p] == x
    requires forall k :: 0 <= k < p ==> xs[k] != x
    ensures Pos(xs, x) == p
  {
  }

  /** The values of `r`, all drawn from `xs`, come in the order of their
      first occurrences in `xs`. */
  predicate InOrderOf<T(==)>(xs: seq<T>, r: seq<T>)
    requires forall k :: 0 <= k < |r| ==> r[k] in xs
  {
    forall i, j :: 0 <= i < j < |r| ==> Pos(xs, r[i]) < Pos(xs, r[j])
  }

  /** Past a first element that differs, positions shift by one. */
  lemma PosOfTail<T>(xs: seq<T>, x: T)
    requires xs != [] && x in xs[1..] && xs[0] != x
    ensures Pos(xs, x) == 1 + Pos(xs[1..], x)
  {
  }

  /** Values in order within the tail stay in order within the whole
      sequence, also behind its first element. */
  lemma InOrderOfCons<T>(xs: seq<T>, r: seq<T>)
    requires xs != [] && xs[0] !in xs[1..]
    requires forall k :: 0 <= k < |r| ==> r[k] in xs[1..]
    requires InOrderOf(xs[1..], r)
    ensures InOrderOf(xs, r)
    ensures InOrderOf(xs, [xs[0]] + r)
  {
    forall k | 0 <= k < |r|
      ensures Pos(xs, r[k]) == 1 + Pos(xs[1..], r[k])
    {
      PosOfTail(xs, r[k]);
    }
    var r' := [xs[0]] + r;
    forall i, j | 0 <= i < j < |r'|
      ensures Pos(xs, r'[i]) < Pos(xs, r'[j])
    {
      assert r'[j] == r[j - 1];
      if i > 0 {
        assert r'[i] == r[i - 1];
      }
    }
  }

  /** Each value once, kept where it first appeared: the array that
      `if (!acc.includes(x)) acc.push(x)` builds over `xs`, one element
      at a time. */
  function UniqueInOrder<T(==)>(xs: seq<T>): (r: seq<T>)
    ensures Distinct(r)
    ensures forall i :: 0 <= i < |r| ==> r[i] in xs
    ensures forall i :: 0 <= i < |xs| ==> xs[i] in r
    ensures |r| <= |xs|
  {
    if xs == [] then []
    else
      var front := xs[..|xs| - 1];
      var p := UniqueInOrder(front);
      var x := xs[|xs| - 1];
      assert xs == front + [x];
      if x in p then p else p + [x]
  }

  /** Values in order within a prefix stay in order within the whole
      sequence, also followed by a value the prefix lacks. */
  lemma InOrderOfSnoc<T>(front: seq<T>, x: T, r: seq<T>)
    requires forall k :: 0 <= k < |r| ==> r[k] in front
    requires InOrderOf(front, r)
    ensures InOrderOf(front + [x], r)
    ensures x !in front ==> InOrderOf(front + [x], r + [x])
  {
    var xs := front + [x];
    forall y | y in front
      ensures Pos(xs, y) == Pos(front, y)
    {
      PosUnique(xs, y, Pos(front, y));
    }
    if x !in front {
      PosUnique(xs, x, |front|);
      var r' := r + [x];
      forall i, j | 0 <= i < j < |r'|
        ensures Pos(xs, r'[i]) < Pos(xs, r'[j])
      {
        assert r'[i] == r[i];
        if j < |r| {
          assert r'[j] == r[j];
        }
      }
    }
  }

  /** The kept values appear in the order of their first occurrences. */
  lemma {:induction false} UniqueInOrderKeepsOrder<T>(xs: seq<T>)
    ensures InOrderOf(xs, UniqueInOrder(xs))
  {
    if xs != [] {
      var n := |xs|;
      var front := xs[..n - 1];
      var x := xs[n - 1];
      UniqueInOrderKeepsOrder(front);
      assert xs == front + [x];
      InOrderOfSnoc(front, x, UniqueInOrder(front));
    }
  }

  // ---------------------------------------------------------------------
  // extractTags

  /** Every text trimmed. */
  function Trims(texts: seq<string>): (r: seq<string>)
    ensures |r| == |texts|
    ensures forall i :: 0 <= i < |texts| ==> r[i] == Trim(texts[i])
  {
    if texts == [] then [] else [Trim(texts[0])] + Trims(texts[1..])
  }

  /** The trimmed texts that are not empty, in document order. */
  function NonEmptyTrims(texts: seq<string>): (r: seq<string>)
    ensures forall k :: 0 <= k < |r| ==> r[k] != [] && r[k] in Trims(texts)
    ensures forall i :: 0 <= i < |texts| && Trims(texts)[i] != [] ==> Trims(texts)[i] in r
  {
    if texts == [] then []
    else
      var rest := NonEmptyTrims(texts[1..]);
      var t := Trim(texts[0]);
      assert Trims(texts) == [t] + Trims(texts[1..]);
      if t == [] then rest else [t] + rest
  }

  /** `extractTags`: the trimmed texts of the tag elements, matched
      selector by selector, without empty ones and without repeats. */
  function ExtractTags(texts: seq<string>): (r: seq<string>)
    ensures Distinct(r)
    ensures forall k :: 0 <= k < |r| ==> r[k] != [] && r[k] in Trims(texts)
    ensures forall i :: 0 <= i < |texts| && Trims(texts)[i] != [] ==> Trims(texts)[i] in r
  {
    UniqueInOrder(NonEmptyTrims(texts))
  }

  /** The tags come in the order their first element appeared. */
  lemma TagsKeepFirstSeenOrder(texts: seq<string>)
    ensures InOrderOf(NonEmptyTrims(texts), ExtractTags(texts))
  {
    UniqueInOrderKeepsOrder(NonEmptyTrims(texts));
  }

  // ---------------------------------------------------------------------
  // extractText

  /** What a selector found: a `<meta>` element with its `content`
      attribute (absent as `None`), or another element with its text. */
  datatype Element = Element(isMeta: bool, contentAttr: Option<string>, text: string)

  function TextOf(e: Element): Option<string> {
    if e.isMeta then e.contentAttr else Some(Trim(e.text))
  }

  /** The position of the first selector that found an element, or the
      number of selectors when none did. */
  function FirstFound(found: seq<Option<Element>>): (k: nat)
    ensures k <= |found|
    ensures forall j :: 0 <= j < k ==> found[j].None?
    ensures k < |found| ==> found[k].Some?
  {
    if found == [] || found[0].Some? then 0 else 1 + FirstFound(found[1..])
  }

  /** `extractText`: the first selector that finds an element decides,
      `null` when none does. */
  function ExtractText(found: seq<Option<Element>>): (r: Option<string>)
    ensures var k := FirstFound(found);
            r == if k == |found| then None else TextOf(found[k].value)
  {
    if found == [] then None
    else if found[0].Some? then TextOf(found[0].value)
    else ExtractText(found[1..])
  }
}
