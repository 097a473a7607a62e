// String8::find and String8::removeAll of utils/String8.cpp: removal inside the buffer that is
// being searched.
module Strings {
  import opened Wrappers

  // p is found in s at i.
  predicate Occurs(s: seq<char>, p: seq<char>, i: int): (r: bool)
    ensures r ==> 0 <= i <= i + |p| <= |s|
    decreases |p|
  {
    0 <= i <= |s| && (p == [] || (i < |s| && s[i] == p[0] && Occurs(s, p[1..], i + 1)))
  }

  lemma {:induction false} OccursIs(s: seq<char>, p: seq<char>, i: int)
    ensures Occurs(s, p, i) <==> 0 <= i <= i + |p| <= |s| && s[i..i + |p|] == p
    decreases |p|
  {
    if p == [] {
    } else {
      OccursIs(s, p[1..], i + 1);
      if 0 <= i < i + |p| <= |s| {
        assert s[i..i + |p|] == [s[i]] + s[i + 1..i + 1 + |p[1..]|];
      }
    }
  }

  // The first occurrence at or after start, or -1; like String8::find, -1 from the end on.
  function FindFrom(s: seq<char>, p: seq<char>, start: nat): (i: int)
    ensures i == -1 || (start <= i < |s| && Occurs(s, p, i))
    ensures forall k :: start <= k < (if i == -1 then |s| else i) ==> !Occurs(s, p, k)
    decreases |s| - start
  {
    if start >= |s| then -1
    else if Occurs(s, p, start) then start
    else FindFrom(s, p, start + 1)
  }

  ghost predicate Contains(s: seq<char>, p: seq<char>) {
    exists i :: Occurs(s, p, i)
  }

  lemma {:induction false} FoundIff(s: seq<char>, p: seq<char>)
    requires p != []
    ensures FindFrom(s, p, 0) >= 0 <==> Contains(s, p)
  {
  }

  // Greedy removal from the left.
  function Removed(s: seq<char>, p: seq<char>): seq<char>
    requires p != []
    decreases |s|
  {
    var i := FindFrom(s, p, 0);
    if i < 0 then s else s[..i] + Removed(s[i + |p|..], p)
  }

  lemma {:induction false} OccursLater(s: seq<char>, p: seq<char>, m: nat, k: int)
    requires m <= |s| && 0 <= k
    ensures Occurs(s[m..], p, k) <==> Occurs(s, p, m + k)
    decreases |p|
  {
    if p == [] {
    } else {
      OccursLater(s, p[1..], m, k + 1);
    }
  }

  lemma {:induction false} FindIs(s: seq<char>, p: seq<char>, start: nat, i: int)
    requires i == -1 || (start <= i < |s| && Occurs(s, p, i))
    requires forall k :: start <= k < (if i == -1 then |s| else i) ==> !Occurs(s, p, k)
    ensures FindFrom(s, p, start) == i
  {
  }

  // Searching a rest of the string is searching the string from there.
  lemma {:induction false} FindInRest(s: seq<char>, p: seq<char>, m: nat)
    requires m <= |s|
    ensures FindFrom(s[m..], p, 0) == if FindFrom(s, p, m) < 0 then -1 else FindFrom(s, p, m) - m
  {
    var a := FindFrom(s, p, m);
    forall k | 0 <= k <= |s| - m ensures Occurs(s[m..], p, k) <==> Occurs(s, p, m + k) {
      OccursLater(s, p, m, k);
    }
    FindIs(s[m..], p, 0, if a < 0 then -1 else a - m);
  }

  lemma {:induction false} RemovedHere(s: seq<char>, p: seq<char>, i: nat, from: nat)
    requires p != [] && Occurs(s, p, i) && from == i + |p|
    ensures Removed(s[i..], p) == Removed(s[from..], p)
  {
    FindIs(s, p, i, i);
    FindInRest(s, p, i);
    var t := s[i..];
    assert t[|p|..] == s[from..];
    assert t[..0] + Removed(t[|p|..], p) == Removed(t[|p|..], p);
  }

  lemma {:induction false} SliceOfDrop(s: seq<char>, n: nat, a: nat, x: nat)
    requires n + a == x <= |s|
    ensures s[n..][..a] == s[n..x] && s[n..][a..] == s[x..]
  {
  }

  lemma {:induction false} RemovedUnfolds(t: seq<char>, p: seq<char>, i: nat, j: nat)
    requires p != [] && FindFrom(t, p, 0) == i && j == i + |p|
    ensures Removed(t, p) == t[..i] + Removed(t[j..], p)
  {
  }

  // Up to the next occurrence everything is kept.
  lemma {:induction false} RemovedUpTo(s: seq<char>, p: seq<char>, n: nat, next: nat)
    requires p != [] && n <= |s| && FindFrom(s, p, n) == next
    ensures Removed(s[n..], p) == s[n..next] + Removed(s[next..], p)
  {
    var t, a, b, x := s[n..], next - n, next - n + |p|, next + |p|;
    assert Removed(t, p) == t[..a] + Removed(t[b..], p) by {
      FindInRest(s, p, n);
      RemovedUnfolds(t, p, a, b);
    }
    SliceOfDrop(s, n, a, next);
    SliceOfDrop(s, n, b, x);
    RemovedHere(s, p, next, x);
  }

  lemma {:induction false} RemovedRest(s: seq<char>, p: seq<char>, n: nat)
    requires p != [] && n <= |s|
    ensures var next := FindFrom(s, p, n);
            Removed(s[n..], p) == if next < 0 then s[n..] else s[n..next] + Removed(s[next..], p)
  {
    FindInRest(s, p, n);
    if FindFrom(s, p, n) >= 0 {
      RemovedUpTo(s, p, n, FindFrom(s, p, n));
    }
  }

  // The gaps with p between them, and without.
  function Joined(gaps: seq<seq<char>>, p: seq<char>): seq<char>
    requires gaps != []
  {
    if |gaps| == 1 then gaps[0] else gaps[0] + p + Joined(gaps[1..], p)
  }

  function Glued(gaps: seq<seq<char>>): seq<char> {
    if gaps == [] then [] else gaps[0] + Glued(gaps[1..])
  }

  // In the gap followed by p, p occurs only at the end.
  ghost predicate EndsFirst(gap: seq<char>, p: seq<char>) {
    forall k :: 0 <= k < |gap| ==> !Occurs(gap + p, p, k)
  }

  // The gaps between the occurrences of p that are found from left to right, each behind the one
  // before; none is in the last gap.
  ghost predicate Gaps(s: seq<char>, p: seq<char>, gaps: seq<seq<char>>) {
    && gaps != [] && s == Joined(gaps, p) && !Contains(gaps[|gaps| - 1], p)
    && forall i :: 0 <= i < |gaps| - 1 ==> EndsFirst(gaps[i], p)
  }

  lemma {:induction false} OccursInFront(s: seq<char>, p: seq<char>, i: nat, gap: seq<char>, k: nat)
    requires i + |p| <= |s| && k <= i && gap + p == s[..i + |p|]
    ensures Occurs(gap + p, p, k) <==> Occurs(s, p, k)
  {
    OccursIs(gap + p, p, k);
    OccursIs(s, p, k);
    assert s[..i + |p|][k..k + |p|] == s[k..k + |p|];
  }

  lemma {:induction false} GapsMore(gap: seq<char>, p: seq<char>, gaps: seq<seq<char>>, rest: seq<char>)
    requires Gaps(rest, p, gaps) && EndsFirst(gap, p)
    ensures Gaps(gap + p + rest, p, [gap] + gaps) && Glued([gap] + gaps) == gap + Glued(gaps)
  {
    var more := [gap] + gaps;
    assert more[1..] == gaps;
    forall i | 0 <= i < |more| - 1 ensures EndsFirst(more[i], p) {
      assert i > 0 ==> more[i] == gaps[i - 1];
    }
  }

  lemma {:induction false} SomeGaps(s: seq<char>, p: seq<char>) returns (gaps: seq<seq<char>>)
    requires p != []
    ensures Gaps(s, p, gaps) && Glued(gaps) == Removed(s, p)
    decreases |s|
  {
    var i := FindFrom(s, p, 0);
    if i < 0 {
      FoundIff(s, p);
      gaps := [s];
      assert Glued([s]) == s + Glued([]) == s;
    } else {
      var gap, rest := s[..i], s[i + |p|..];
      OccursIs(s, p, i);
      assert s[..i + |p|] == gap + p && s == gap + p + rest;
      forall k | 0 <= k < |gap| ensures !Occurs(gap + p, p, k) {
        OccursInFront(s, p, i, gap, k);
      }
      gaps := SomeGaps(rest, p);
      GapsMore(gap, p, gaps, rest);
      gaps := [gap] + gaps;
    }
  }

  lemma {:induction false} GapsLess(s: seq<char>, p: seq<char>, gaps: seq<seq<char>>)
    requires Gaps(s, p, gaps) && |gaps| > 1
    ensures s == gaps[0] + p + Joined(gaps[1..], p) && EndsFirst(gaps[0], p)
    ensures Gaps(Joined(gaps[1..], p), p, gaps[1..])
  {
    forall i | 0 <= i < |gaps[1..]| - 1 ensures EndsFirst(gaps[1..][i], p) {
      assert EndsFirst(gaps[i + 1], p);
    }
  }

  lemma {:induction false} GapFound(s: seq<char>, p: seq<char>, gap: seq<char>, rest: seq<char>)
    requires p != [] && s == gap + p + rest && EndsFirst(gap, p)
    ensures FindFrom(s, p, 0) == |gap| && s[..|gap|] == gap && s[|gap| + |p|..] == rest
  {
    var i := |gap|;
    assert s[..i + |p|] == gap + p && s[i..i + |p|] == p;
    OccursIs(s, p, i);
    forall k | 0 <= k < i ensures !Occurs(s, p, k) {
      OccursInFront(s, p, i, gap, k);
    }
    FindIs(s, p, 0, i);
  }

  lemma {:induction false} GapsAreRemoved(s: seq<char>, p: seq<char>, gaps: seq<seq<char>>)
    requires p != [] && Gaps(s, p, gaps)
    ensures Removed(s, p) == Glued(gaps)
    decreases |gaps|
  {
    if |gaps| == 1 {
      FoundIff(s, p);
      assert Glued(gaps[1..]) == [];
    } else {
      GapsLess(s, p, gaps);
      var rest := Joined(gaps[1..], p);
      GapFound(s, p, gaps[0], rest);
      RemovedUnfolds(s, p, |gaps[0]|, |gaps[0]| + |p|);
      GapsAreRemoved(rest, p, gaps[1..]);
    }
  }

  // The result of removal is what is between the occurrences found from left to right.
  lemma {:induction false} RemovedIff(s: seq<char>, p: seq<char>, r: seq<char>)
    requires p != []
    ensures Removed(s, p) == r <==> exists gaps :: Gaps(s, p, gaps) && Glued(gaps) == r
  {
    var some := SomeGaps(s, p);
    forall gaps | Gaps(s, p, gaps) ensures Glued(gaps) == Removed(s, p) {
      GapsAreRemoved(s, p, gaps);
    }
  }

  // What the rest of the text from i on contributes, nothing at the end.
  function Rest(s: seq<char>, p: seq<char>, i: nat): seq<char>
    requires p != [] && i <= |s|
  {
    if i < |s| then Removed(s[i..], p) else []
  }

  // From an occurrence at i on: skip it, keep what follows up to the next one, or to the end.
  lemma {:induction false} RemovedFrom(s: seq<char>, p: seq<char>, i: nat, from: nat, next: nat)
    requires p != [] && Occurs(s, p, i) && from == i + |p|
    requires next == if FindFrom(s, p, from) < 0 then |s| else FindFrom(s, p, from)
    ensures Rest(s, p, i) == s[from..next] + Rest(s, p, next)
  {
    RemovedHere(s, p, i, from);
    RemovedRest(s, p, from);
    if next == |s| {
      assert s[from..next] + [] == s[from..];
    }
  }

  // The first tail characters of the buffer are the result for the text before index, and the
  // text from index on is still in place.
  predicate Removing(buf: seq<char>, other: seq<char>, index: nat, tail: nat, text: seq<char>) {
    && other != [] && tail <= index <= |text| && |buf| == |text| + 1 && buf[|text|] == '\0'
    && buf[index..|text|] == text[index..]
    && Removed(text, other) == buf[..tail] + Rest(text, other, index)
  }

  // memmove of n characters.
  function Moved(buf: seq<char>, to: nat, from: nat, n: nat): seq<char>
    requires to + n <= |buf| && from + n <= |buf|
  {
    buf[..to] + buf[from..from + n] + buf[to + n..]
  }

  // Slices of the part that is still in place.
  lemma {:induction false} StillThere(buf: seq<char>, text: seq<char>, index: nat, a: nat, b: nat)
    requires index <= a <= b <= |text| < |buf| && buf[index..|text|] == text[index..]
    ensures buf[a..b] == text[a..b]
  {
    forall k | a <= k < b ensures buf[k] == text[k] {
      assert buf[index..|text|][k - index] == text[index..][k - index];
    }
  }

  lemma {:induction false} MovedParts(buf: seq<char>, to: nat, from: nat, n: nat, a: nat, b: nat)
    requires to + n <= |buf| && from + n <= |buf| && to + n <= a <= b <= |buf|
    ensures Moved(buf, to, from, n)[..to + n] == buf[..to] + buf[from..from + n]
    ensures Moved(buf, to, from, n)[a..b] == buf[a..b] && |Moved(buf, to, from, n)| == |buf|
    ensures b < |buf| ==> Moved(buf, to, from, n)[b] == buf[b]
  {
  }

  // What the result gains, and what the buffer holds, by one round.
  lemma {:induction false} ResultGains(text: seq<char>, other: seq<char>, done: seq<char>,
                                       index: nat, from: nat, next: nat)
    requires other != [] && Occurs(text, other, index) && from == index + |other|
    requires next == if FindFrom(text, other, from) < 0 then |text| else FindFrom(text, other, from)
    requires Removed(text, other) == done + Rest(text, other, index)
    ensures Removed(text, other) == done + text[from..next] + Rest(text, other, next)
  {
    RemovedFrom(text, other, index, from, next);
    Regroup(done, text[from..next], Rest(text, other, next));
  }

  lemma {:induction false} BufferGains(buf: seq<char>, text: seq<char>, index: nat, tail: nat,
                                       from: nat, n: nat, next: nat)
    requires tail <= index <= from <= next <= |text| < |buf| && next == from + n
    requires buf[index..|text|] == text[index..]
    ensures var buf' := Moved(buf, tail, from, n);
            buf'[..tail + n] == buf[..tail] + text[from..next] && buf'[next..|text|] == text[next..]
  {
    StillThere(buf, text, index, from, next);
    StillThere(buf, text, index, next, |text|);
    MovedParts(buf, tail, from, n, next, |text|);
  }

  lemma {:induction false} RemovingStep(buf: seq<char>, other: seq<char>, index: nat, tail: nat, text: seq<char>,
                                        from: nat, n: nat, next: nat)
    requires Removing(buf, other, index, tail, text) && Occurs(text, other, index) && from == index + |other|
    requires next == (if FindFrom(text, other, from) < 0 then |text| else FindFrom(text, other, from)) == from + n
    ensures Removing(Moved(buf, tail, from, n), other, next, tail + n, text)
  {
    ResultGains(text, other, buf[..tail], index, from, next);
    BufferGains(buf, text, index, tail, from, n, next);
    MovedParts(buf, tail, from, n, next, |text|);
  }

  lemma {:induction false} FindAfter(a: seq<char>, b: seq<char>, p: seq<char>, m: nat)
    requires m <= |a| == |b| && a[m..] == b[m..]
    ensures FindFrom(a, p, m) == FindFrom(b, p, m)
  {
    FindInRest(a, p, m);
    FindInRest(b, p, m);
  }

  // From index on the search sees the text.
  lemma {:induction false} SearchedPart(buf: seq<char>, text: seq<char>, index: nat, from: nat, p: seq<char>)
    requires index <= from <= |text| < |buf| && buf[index..|text|] == text[index..] && '\0' !in text
    ensures FindFrom(buf[..|text|], p, from) == FindFrom(text, p, from)
    ensures forall i :: from <= i < |text| ==> buf[i] != '\0'
  {
    StillThere(buf, text, index, from, |text|);
    assert buf[..|text|][from..] == buf[from..|text|] && text[from..|text|] == text[from..];
    FindAfter(buf[..|text|], text, p, from);
    forall i | from <= i < |text| ensures buf[i] == text[i] {
      assert buf[from..|text|][i - from] == text[i];
    }
  }

  class String8 {
    var mString: array<char>        // the text and a NUL

    ghost predicate Valid()
      reads this, mString
    {
      && 0 < mString.Length && mString[mString.Length - 1] == '\0'
      && forall i :: 0 <= i < mString.Length - 1 ==> mString[i] != '\0'
    }

    ghost function Text(): seq<char>
      requires Valid()
      reads this, mString
    {
      mString[..mString.Length - 1]
    }

    // strstr on what is in the buffer now, from start on, where no NUL comes before the last.
    function Find(other: seq<char>, start: nat): int
      requires 0 < mString.Length && mString[mString.Length - 1] == '\0'
      requires forall i :: start <= i < mString.Length - 1 ==> mString[i] != '\0'
      reads this, mString
    {
      FindFrom(mString[..mString.Length - 1], other, start)
    }

    // memmove within the buffer.
    method Memmove(to: nat, from: nat, n: nat, ghost buf: seq<char>)
      requires mString[..] == buf && to + n <= mString.Length && from + n <= mString.Length
      modifies mString
      ensures mString[..] == Moved(buf, to, from, n)
    {
      forall k | 0 <= k < n {
        mString[to + k] := mString[from + k];
      }
    }

    // editResize: the buffer with room for size characters and the NUL; the same one when it has
    // that size and is not shared, a copy otherwise.
    method EditResize(size: nat, shared: bool)
      requires 0 < mString.Length
      modifies this
      ensures mString.Length == size + 1 && (mString == old(mString) || fresh(mString))
      ensures shared ==> fresh(mString)
      ensures forall i :: 0 <= i < size + 1 && i < old(mString.Length) ==> mString[i] == old(mString[i])
    {
      if !shared && mString.Length == size + 1 {
        return;
      }
      var before := mString;
      mString := new char[size + 1](i requires i >= 0 reads before => if i < before.Length then before[i] else '\0');
    }

    // One round of the loop: the occurrence at index is dropped, and what follows it up to the
    // next one moved down to tail.  The search does not see what was moved before.
    method RemoveNext(other: seq<char>, index: nat, tail: nat, ghost text: seq<char>, ghost buf: seq<char>)
      returns (next: nat, tail': nat, ghost buf': seq<char>)
      requires '\0' !in text && Occurs(text, other, index)
      requires mString[..] == buf && Removing(buf, other, index, tail, text)
      modifies mString
      ensures index + |other| <= next <= |text| && (next < |text| ==> Occurs(text, other, next))
      ensures mString[..] == buf' && Removing(buf', other, next, tail', text)
    {
      var from, len := index + |other|, mString.Length - 1;
      SearchedPart(buf, text, index, from, other);
      assert len == |text| && mString[..len] == buf[..len];
      var found := Find(other, from);
      assert found == FindFrom(text, other, from);
      next := if found < 0 then len else found;
      var n := next - from;
      RemovingStep(buf, other, index, tail, text, from, n, next);
      Memmove(tail, from, n, buf);
      tail', buf' := tail + n, Moved(buf, tail, from, n);
    }

    method RemoveLoop(other: seq<char>, first: nat, ghost text: seq<char>, ghost buf: seq<char>)
      returns (tail: nat, ghost buf': seq<char>)
      requires '\0' !in text && Occurs(text, other, first)
      requires mString[..] == buf && Removing(buf, other, first, first, text)
      modifies mString
      ensures mString[..] == buf' && Removing(buf', other, |text|, tail, text)
    {
      var index := first;
      tail, buf' := first, buf;
      while index < mString.Length - 1
        invariant mString[..] == buf' && Removing(buf', other, index, tail, text)
        invariant index < |text| ==> Occurs(text, other, index)
        decreases |text| - index
      {
        index, tail, buf' := RemoveNext(other, index, tail, text, buf');
      }
    }

    // unlockBuffer: the text ends at size.
    method UnlockBuffer(size: nat, ghost text: seq<char>)
      requires size + 1 <= mString.Length && mString[..size] == text
      requires '\0' !in text && mString[mString.Length - 1] == '\0'
      modifies this, mString
      ensures Valid() && Text() == text && (mString == old(mString) || fresh(mString))
    {
      if size != mString.Length - 1 {
        EditResize(size, false);
        mString[size] := '\0';
      }
      assert forall i :: 0 <= i < size ==> mString[i] == text[i];
    }

    // removeAll from the first occurrence on, in a buffer of its own.
    method RemoveFrom(other: seq<char>, index: nat, ghost text: seq<char>)
      requires Valid() && Text() == text && other != [] && index == FindFrom(text, other, 0)
      modifies this, mString
      ensures Valid() && Text() == Removed(text, other) && (mString == old(mString) || fresh(mString))
    {
      assert mString[..] == text + ['\0'];
      RemovedFirst(text, other, index);
      var tail;
      ghost var buf;
      tail, buf := RemoveLoop(other, index, text, text + ['\0']);
      RemovedHasNoNul(text, other);
      UnlockBuffer(tail, Removed(text, other));
    }

    // removeAll, where it terminates: see RoundAdvances.
    method RemoveAll(other: seq<char>, shared: bool) returns (found: bool)
      requires Valid() && (other != [] || Text() == [])
      modifies this, mString
      ensures Valid()
      ensures other != [] ==> Text() == Removed(old(Text()), other) && (found <==> Contains(old(Text()), other))
      ensures other == [] ==> Text() == [] && !found
      ensures !found || shared ==> old(mString[..]) == old(mString)[..]
    {
      ghost var text := Text();
      var index := Find(other, 0);
      if index < 0 {
        if other != [] {
          FoundIff(text, other);
        }
        return false;
      }
      FoundIff(text, other);
      EditResize(mString.Length - 1, shared);
      RemoveFrom(other, index, text);
      return true;
    }
  }

  // A round of removeAll goes on behind the occurrence it removes exactly when the pattern is not
  // empty: with an empty one the loop never ends, unless it does not begin because the text is empty.
  lemma {:induction false} RoundAdvances(s: seq<char>, p: seq<char>, index: nat)
    requires index < |s| && Occurs(s, p, index)
    ensures var next := FindFrom(s, p, index + |p|);
            p != [] <==> next < 0 || next > index
    ensures FindFrom(s, [], 0) >= 0 <==> s != []
  {
    OccursIs(s, p, index);
  }

  lemma {:induction false} RemovedFirst(s: seq<char>, p: seq<char>, i: nat)
    requires p != [] && i == FindFrom(s, p, 0)
    ensures Removed(s, p) == s[..i] + Rest(s, p, i)
  {
    RemovedRest(s, p, 0);
    assert s[0..] == s && s[0..i] == s[..i];
  }

  lemma {:induction false} RemovedHasNoNul(s: seq<char>, p: seq<char>)
    requires p != [] && '\0' !in s
    ensures '\0' !in Removed(s, p)
    decreases |s|
  {
    var i := FindFrom(s, p, 0);
    if i < 0 {
    } else {
      RemovedHasNoNul(s[i + |p|..], p);
    }
  }
}
