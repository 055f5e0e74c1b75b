/** The pure state updaters of the two list pages: the input filters and the list
    edits applied after the server answers. */
module ListMirror {
  import opened Js

  /** `/\D/g` removes all but digits; `/[^\d.]/g` also keeps dots. */
  datatype InputFilter = Digits | DigitsAndDot

  predicate IsDigit(c: char)
  {
    '0' <= c <= '9'
  }

  predicate Keeps(f: InputFilter, c: char)
  {
    IsDigit(c) || (f == DigitsAndDot && c == '.')
  }

  /** `value.replace(/\D/g, '')` or `value.replace(/[^\d.]/g, '')`. */
  function Sanitise(f: InputFilter, s: string): string
  {
    if s == [] then []
    else (if Keeps(f, s[0]) then [s[0]] else []) + Sanitise(f, s[1..])
  }

  /** Only kept characters come out. */
  lemma {:induction false} SanitiseKeepsOnly(f: InputFilter, s: string)
    ensures forall i :: 0 <= i < |Sanitise(f, s)| ==> Keeps(f, Sanitise(f, s)[i])
  {
    if s != [] {
      SanitiseKeepsOnly(f, s[1..]);
    }
  }

  /** Every kept character of the input comes out as often as it went in; no other does. */
  lemma {:induction false} SanitiseCounts(f: InputFilter, s: string)
    ensures forall c :: multiset(Sanitise(f, s))[c] == if Keeps(f, c) then multiset(s)[c] else 0
  {
    if s != [] {
      SanitiseCounts(f, s[1..]);
      assert s == [s[0]] + s[1..];
      assert multiset(s) == multiset([s[0]]) + multiset(s[1..]);
    }
  }

  /** The filter works piecewise, so what survives keeps its original order. */
  lemma {:induction false} SanitiseConcat(f: InputFilter, a: string, b: string)
    ensures Sanitise(f, a + b) == Sanitise(f, a) + Sanitise(f, b)
  {
    if a != [] {
      SanitiseConcat(f, a[1..], b);
      assert (a + b)[1..] == a[1..] + b;
    } else {
      assert a + b == b;
    }
  }

  /** Text made only of kept characters goes through unchanged. */
  lemma {:induction false} SanitiseClean(f: InputFilter, s: string)
    requires forall i :: 0 <= i < |s| ==> Keeps(f, s[i])
    ensures Sanitise(f, s) == s
  {
    if s != [] {
      SanitiseClean(f, s[1..]);
      assert s == [s[0]] + s[1..];
    }
  }

  /** Filtering twice is filtering once. */
  lemma SanitiseIdempotent(f: InputFilter, s: string)
    ensures Sanitise(f, Sanitise(f, s)) == Sanitise(f, s)
  {
    SanitiseKeepsOnly(f, s);
    SanitiseClean(f, Sanitise(f, s));
  }

  /** `prev.map(x => x.id === id ? rec : x)` after a successful edit: the entries with
      that id become the server's record, every other entry and the length stay. */
  function ReplaceById(list: seq<Doc>, id: Value, rec: Doc): (r: seq<Doc>)
    ensures |r| == |list|
    ensures forall i :: 0 <= i < |list| ==> r[i] == if Field(list[i], "id") == id then rec else list[i]
  {
    if list == [] then []
    else [if Field(list[0], "id") == id then rec else list[0]] + ReplaceById(list[1..], id, rec)
  }

  /** `prev.filter(x => x.id !== id)` after a successful delete: the entries with that
      id go, every other entry stays, as often as it was there. */
  function RemoveById(list: seq<Doc>, id: Value): (r: seq<Doc>)
    ensures |r| <= |list|
  {
    if list == [] then []
    else (if Field(list[0], "id") != id then [list[0]] else []) + RemoveById(list[1..], id)
  }

  /** No entry with that id is left; every other entry is there as often as before. */
  lemma {:induction false} RemoveByIdKeepsOthers(list: seq<Doc>, id: Value)
    ensures forall x :: x in RemoveById(list, id) ==> x in list && Field(x, "id") != id
    ensures forall x :: Field(x, "id") != id ==> multiset(RemoveById(list, id))[x] == multiset(list)[x]
  {
    if list != [] {
      RemoveByIdKeepsOthers(list[1..], id);
      assert list == [list[0]] + list[1..];
      assert multiset(list) == multiset([list[0]]) + multiset(list[1..]);
    }
  }

  /** The entries that stay keep their order: the filter works piecewise ... */
  lemma {:induction false} RemoveByIdConcat(a: seq<Doc>, b: seq<Doc>, id: Value)
    ensures RemoveById(a + b, id) == RemoveById(a, id) + RemoveById(b, id)
  {
    if a != [] {
      RemoveByIdConcat(a[1..], b, id);
      assert (a + b)[1..] == a[1..] + b;
    } else {
      assert a + b == b;
    }
  }

  /** ... and a list without that id is left as it is. */
  lemma {:induction false} RemoveByIdNoMatch(list: seq<Doc>, id: Value)
    requires forall i :: 0 <= i < |list| ==> Field(list[i], "id") != id
    ensures RemoveById(list, id) == list
  {
    if list != [] {
      RemoveByIdNoMatch(list[1..], id);
      assert list == [list[0]] + list[1..];
    }
  }
}
