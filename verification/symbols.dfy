/** The ordered ticker list both programs keep: Python's `x in list`,
    `list.append(x)` and `list.remove(x)`, and the "no duplicates" invariant
    that the add commands maintain. */
module Symbols {

  /** What an add or remove command reported to the user. */
  datatype Outcome =
    | Added           // appended and saved, "Success"
    | AlreadyPresent  // duplicate add, "Warning"
    | Removed         // removed and saved, "Success"
    | NotFound        // remove of an absent symbol, "Warning"
    | Ignored         // dialog cancelled or left empty: nothing happens
    | EmptyTicker     // "Ticker cannot be empty."
    | NoCurrentPrice  // validation found no current price: "Invalid ticker ..."
    | ValidationError // validation fetch raised: "Failed to validate ..."

  /** The result of one add or remove command: the new list and the report. */
  datatype Mutation = Mutation(tickers: seq<string>, outcome: Outcome)

  predicate NoDuplicates(s: seq<string>) {
    forall i, j :: 0 <= i < j < |s| ==> s[i] != s[j]
  }

  /** Index of the first occurrence of `x`, as Python's `list.index`. */
  function IndexOf(s: seq<string>, x: string): (i: nat)
    requires x in s
    ensures i < |s| && s[i] == x
    ensures x !in s[..i]
  {
    if s[0] == x then 0 else 1 + IndexOf(s[1..], x)
  }

  /** `if x not in s: s.append(x)`. */
  function AppendIfAbsent(s: seq<string>, x: string): (r: seq<string>)
    ensures x in r
    ensures x !in s ==> r == s + [x]
    ensures x in s ==> r == s
  {
    if x in s then s else s + [x]
  }

  /** Python's `list.remove(x)` when `x` is present; the identity otherwise. */
  function RemoveFirst(s: seq<string>, x: string): (r: seq<string>)
    ensures x in s ==> r == s[..IndexOf(s, x)] + s[IndexOf(s, x) + 1..]
    ensures x !in s ==> r == s
  {
    if s == [] then []
    else if s[0] == x then s[1..]
    else
      var r' := RemoveFirst(s[1..], x);
      if x in s[1..] then
        RemoveCons(s, x, r');
        [s[0]] + r'
      else
        assert s == [s[0]] + s[1..];
        [s[0]] + r'
  }

  /** The step of `RemoveFirst` past a head that is not `x`: cutting `x` out
      of the tail and putting the head back cuts `x` out of the list. */
  lemma RemoveCons(s: seq<string>, x: string, r': seq<string>)
    requires s != [] && s[0] != x && x in s[1..]
    requires r' == s[1..][..IndexOf(s[1..], x)] + s[1..][IndexOf(s[1..], x) + 1..]
    ensures [s[0]] + r' == s[..IndexOf(s, x)] + s[IndexOf(s, x) + 1..]
  {
    var t := s[1..];
    var k := IndexOf(t, x);
    assert IndexOf(s, x) == k + 1;
    assert s[..k + 1] == [s[0]] + t[..k];
    assert s[k + 2..] == t[k + 1..];
  }

  /** Removal takes away exactly one copy of `x`, if there is one. */
  lemma {:induction false} RemoveFirstMultiset(s: seq<string>, x: string)
    ensures multiset(RemoveFirst(s, x)) == multiset(s) - multiset{x}
  {
    if s != [] {
      assert s == [s[0]] + s[1..];
      if s[0] != x {
        RemoveFirstMultiset(s[1..], x);
        assert RemoveFirst(s, x) == [s[0]] + RemoveFirst(s[1..], x);
      }
    }
  }

  /** Appending an absent symbol keeps the list free of duplicates. */
  lemma AppendKeepsNoDuplicates(s: seq<string>, x: string)
    requires NoDuplicates(s)
    ensures NoDuplicates(AppendIfAbsent(s, x))
  {
  }

  /** Removing a symbol keeps the list free of duplicates, and afterwards the
      symbol is gone entirely. */
  lemma RemoveKeepsNoDuplicates(s: seq<string>, x: string)
    requires NoDuplicates(s)
    ensures NoDuplicates(RemoveFirst(s, x))
    ensures x !in RemoveFirst(s, x)
  {
    var r := RemoveFirst(s, x);
    if x in s {
      var k := IndexOf(s, x);
      forall i, j | 0 <= i < j < |r| ensures r[i] != r[j] {
        RemoveKeepsOrder(s, x, i, j);
      }
      forall i | 0 <= i < |r| ensures r[i] != x {
        CutAt(s, k, i);
      }
    }
  }

  /** Removing what was just appended gives back the original list. */
  lemma RemoveUndoesAppend(s: seq<string>, x: string)
    requires x !in s
    ensures RemoveFirst(AppendIfAbsent(s, x), x) == s
  {
    var t := s + [x];
    assert t[..|s|] == s;
    assert IndexOf(t, x) == |s|;
  }

  /** Cutting position `k` out of a list moves every later element one place
      forward and leaves the earlier ones where they were. */
  lemma CutAt(s: seq<string>, k: nat, i: nat)
    requires k < |s| && i < |s| - 1
    ensures (s[..k] + s[k + 1..])[i] == s[if i < k then i else i + 1]
  {
  }

  /** Removal keeps the relative order of the symbols that remain: it is the
      list with position `IndexOf(s, x)` cut out. */
  lemma RemoveKeepsOrder(s: seq<string>, x: string, i: nat, j: nat)
    requires x in s
    requires i < j < |RemoveFirst(s, x)|
    ensures var k := IndexOf(s, x);
      var i' := if i < k then i else i + 1;
      var j' := if j < k then j else j + 1;
      i' < j' < |s| && RemoveFirst(s, x)[i] == s[i'] && RemoveFirst(s, x)[j] == s[j']
  {
    var k := IndexOf(s, x);
    CutAt(s, k, i);
    CutAt(s, k, j);
  }
}
