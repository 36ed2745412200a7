/** Searching, splitting and joining by a separator longer than one character. */
module Substrings {
  import opened Wrappers

  predicate EndsWith(s: string, end: string) {
    |end| <= |s| && s[|s| - |end|..] == end
  }

  predicate Occurs(s: string, sep: string) {
    s != "" && (sep <= s || Occurs(s[1..], sep))
  }

  /** `sep in s`. */
  lemma {:induction false} OccursExactly(s: string, sep: string)
    requires sep != ""
    ensures Occurs(s, sep) <==> exists before, after :: s == before + sep + after
  {
    if s != "" {
      OccursExactly(s[1..], sep);
      if sep <= s {
        assert s == "" + sep + s[|sep|..];
      } else if before, after :| s[1..] == before + sep + after {
        assert s == ([s[0]] + before) + sep + after;
      }
      if before, after :| s == before + sep + after {
        if before == "" {
          assert s == sep + after;
        } else {
          assert s[1..] == before[1..] + sep + after;
        }
      }
    }
  }

  /** The text before the first `sep`; all of it when there is none. */
  function Until(s: string, sep: string): (r: string)
    requires sep != ""
    ensures r <= s
    ensures Occurs(s, sep) ==> |r| + |sep| <= |s|
  {
    if s == "" || sep <= s then "" else [s[0]] + Until(s[1..], sep)
  }

  function SplitOn(s: string, sep: string): (parts: seq<string>)
    requires sep != ""
    ensures |parts| > 0
  {
    if !Occurs(s, sep) then [s]
    else [Until(s, sep)] + SplitOn(s[|Until(s, sep)| + |sep|..], sep)
  }

  function JoinOn(parts: seq<string>, sep: string): string
    requires |parts| > 0
  {
    if |parts| == 1 then parts[0] else parts[0] + sep + JoinOn(parts[1..], sep)
  }

  /** No `sep` starts inside `p` when `p` is followed by `sep`. */
  predicate Apart(p: string, sep: string)
    requires sep != ""
  {
    !Occurs(p + sep[..|sep| - 1], sep)
  }

  lemma NotYet(p: string, sep: string, rest: string)
    requires sep != "" && p != "" && Apart(p, sep)
    ensures !(sep <= p + sep + rest)
  {
    var inner := p + sep[..|sep| - 1];
    assert (p + sep + rest)[..|sep|] == inner[..|sep|];
  }

  lemma UntilStep(s: string, sep: string)
    requires sep != "" && s != "" && !(sep <= s)
    ensures Until(s, sep) == [s[0]] + Until(s[1..], sep)
    ensures Occurs(s, sep) == Occurs(s[1..], sep)
  {
  }

  lemma ApartTail(p: string, sep: string)
    requires sep != "" && p != "" && Apart(p, sep)
    ensures Apart(p[1..], sep)
  {
    assert (p + sep[..|sep| - 1])[1..] == p[1..] + sep[..|sep| - 1];
  }

  lemma UntilNow(sep: string, rest: string)
    requires sep != ""
    ensures Occurs(sep + rest, sep) && Until(sep + rest, sep) == ""
  {
  }

  lemma {:induction false} UntilApart(p: string, sep: string, rest: string)
    requires sep != "" && Apart(p, sep)
    ensures Occurs(p + sep + rest, sep) && Until(p + sep + rest, sep) == p
  {
    hide Apart, Until, Occurs;
    var s := p + sep + rest;
    if p == "" {
      assert s == sep + rest;
      UntilNow(sep, rest);
    } else {
      ApartTail(p, sep);
      NotYet(p, sep, rest);
      UntilApart(p[1..], sep, rest);
      UntilStep(s, sep);
      assert s[1..] == p[1..] + sep + rest;
      assert [p[0]] + p[1..] == p;
    }
  }

  lemma {:induction false} UntilShorter(p: string, sep: string, rest: string)
    requires sep != "" && !Apart(p, sep)
    ensures |Until(p + sep + rest, sep)| < |p|
  {
    var s := p + sep + rest;
    if p == "" {
      assert p + sep[..|sep| - 1] == sep[..|sep| - 1];
      OccursFits(sep[..|sep| - 1], sep);
    } else if !(sep <= s) {
      var inner := p + sep[..|sep| - 1];
      assert s[..|inner|] == inner;
      assert inner[1..] == p[1..] + sep[..|sep| - 1];
      assert s[1..] == p[1..] + sep + rest;
      UntilShorter(p[1..], sep, rest);
    }
  }

  lemma {:induction false} OccursFits(s: string, sep: string)
    requires Occurs(s, sep)
    ensures |sep| <= |s|
  {
    if !(sep <= s) {
      OccursFits(s[1..], sep);
    }
  }

  lemma {:induction false} SplitOnJoin(parts: seq<string>, sep: string)
    requires |parts| > 0 && sep != ""
    requires forall i | 0 <= i < |parts| :: Apart(parts[i], sep)
    ensures SplitOn(JoinOn(parts, sep), sep) == parts
  {
    if |parts| == 1 {
      OccursInPrefix(parts[0], sep[..|sep| - 1], sep);
    } else {
      var rest := JoinOn(parts[1..], sep);
      UntilApart(parts[0], sep, rest);
      assert (parts[0] + sep + rest)[|parts[0]| + |sep|..] == rest;
      SplitOnJoin(parts[1..], sep);
      assert [parts[0]] + parts[1..] == parts;
    }
  }

  lemma {:induction false} OccursInPrefix(p: string, tail: string, sep: string)
    requires !Occurs(p + tail, sep)
    ensures !Occurs(p, sep)
  {
    if p != "" {
      assert (p + tail)[1..] == p[1..] + tail;
      OccursInPrefix(p[1..], tail, sep);
      assert sep <= p ==> sep <= p + tail;
    }
  }

  lemma {:induction false} OccursInSuffix(p: string, tail: string, sep: string)
    requires !Occurs(p + tail, sep)
    ensures !Occurs(tail, sep)
  {
    if p == "" {
      assert p + tail == tail;
    } else {
      assert (p + tail)[1..] == p[1..] + tail;
      OccursInSuffix(p[1..], tail, sep);
    }
  }

  lemma {:induction false} CharMissing(s: string, sep: string, i: nat)
    requires i < |sep| && sep[i] !in s
    ensures !Occurs(s, sep)
  {
    if s != "" {
      CharMissing(s[1..], sep, i);
    }
  }

  lemma {:induction false} UntilHasNone(s: string, sep: string)
    requires sep != ""
    ensures !Occurs(Until(s, sep), sep)
  {
    if s != "" && !(sep <= s) {
      UntilHasNone(s[1..], sep);
      var r := Until(s, sep);
      assert r[1..] == Until(s[1..], sep);
      assert sep <= r ==> sep <= s;
    }
  }

  lemma {:induction false} PartsHaveNone(s: string, sep: string)
    requires sep != ""
    ensures forall i | 0 <= i < |SplitOn(s, sep)| :: !Occurs(SplitOn(s, sep)[i], sep)
    decreases |s|
  {
    if Occurs(s, sep) {
      UntilHasNone(s, sep);
      PartsHaveNone(s[|Until(s, sep)| + |sep|..], sep);
    }
  }

  /** Where the last `sep` starts. */
  function LastAt(s: string, sep: string): (r: Option<nat>)
    requires sep != ""
    ensures r.Some? ==> r.value + |sep| <= |s| && s[r.value..r.value + |sep|] == sep
                        && !Occurs(s[r.value + 1..], sep)
    ensures r.None? <==> !Occurs(s, sep)
  {
    if s == "" then None
    else
      var r := LastAt(s[1..], sep);
      if r.Some? then
        assert s[1..][r.value..r.value + |sep|] == s[r.value + 1..r.value + 1 + |sep|];
        assert s[1..][r.value + 1..] == s[r.value + 2..];
        Some(r.value + 1)
      else if sep <= s then Some(0) else None
  }

  lemma {:induction false} LastAtIs(p: string, sep: string, rest: string)
    requires sep != "" && !Occurs((sep + rest)[1..], sep)
    ensures LastAt(p + sep + rest, sep) == Some(|p|)
  {
    var s := p + sep + rest;
    if p == "" {
      assert s == sep + rest;
    } else {
      assert s[1..] == p[1..] + sep + rest;
      LastAtIs(p[1..], sep, rest);
    }
  }
}
