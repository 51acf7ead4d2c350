/** A JavaScript `Set` of names: no duplicates, iterated (`Array.from`) in
    insertion order. It is kept as a sequence so that the order is visible. */
module OrderedSet {

  ghost predicate NoDuplicates(s: seq<string>) {
    forall i, j :: 0 <= i < j < |s| ==> s[i] != s[j]
  }

  ghost function Elements(s: seq<string>): set<string> {
    set x | x in s
  }

  /** `set.add(x)`: a new element goes to the end; an element already present
      keeps its place. */
  function Add(s: seq<string>, x: string): (r: seq<string>)
    ensures Elements(r) == Elements(s) + {x}
    ensures NoDuplicates(s) ==> NoDuplicates(r)
    ensures |s| <= |r| && r[..|s|] == s
    ensures x in s ==> r == s
  {
    if x in s then s else s + [x]
  }

  /** `set.delete(x)`: removes `x` and keeps the order of the rest. */
  function Delete(s: seq<string>, x: string): (r: seq<string>)
    ensures Elements(r) == Elements(s) - {x}
    ensures NoDuplicates(s) ==> NoDuplicates(r)
    ensures x !in s ==> r == s
    ensures NoDuplicates(s) && x in s ==> |r| == |s| - 1
  {
    if s == [] then []
    else if s[0] == x then
      Delete(s[1..], x)
    else
      var rest := Delete(s[1..], x);
      assert s == [s[0]] + s[1..];
      assert Elements(s) == {s[0]} + Elements(s[1..]);
      assert NoDuplicates(s) ==> s[0] !in s[1..];
      assert s[0] in rest ==> s[0] in Elements(rest);
      assert Elements([s[0]] + rest) == {s[0]} + Elements(rest);
      [s[0]] + rest
  }

  /** Deleting a name that occurs once removes exactly that entry and keeps the others
      in their order. */
  lemma {:induction false} DeleteKeepsOrder(s: seq<string>, x: string)
    requires NoDuplicates(s) && x in s
    ensures exists k :: 0 <= k < |s| && s[k] == x && Delete(s, x) == s[..k] + s[k + 1..]
  {
    if s[0] == x {
      assert Delete(s, x) == s[..0] + s[1..];
    } else {
      assert x in s[1..];
      DeleteKeepsOrder(s[1..], x);
      var j :| 0 <= j < |s| - 1 && s[1..][j] == x && Delete(s[1..], x) == s[1..][..j] + s[1..][j + 1..];
      assert s[..j + 1] + s[j + 2..] == [s[0]] + Delete(s[1..], x);
    }
  }

  /** Adding a name that was absent and then deleting it gives back the same list,
      order included. */
  lemma {:induction false} AddThenDelete(s: seq<string>, x: string)
    requires x !in s
    ensures Delete(Add(s, x), x) == s
  {
    if s != [] {
      assert (s + [x])[1..] == s[1..] + [x];
      AddThenDelete(s[1..], x);
    }
  }
}
