/**
 * The few `String.prototype` operations the scraper relies on, for a
 * one-character search string: `includes` is `c in s`, `replace` with a
 * string pattern replaces only the first occurrence, `replace(/c/g, '')`
 * removes every occurrence and `split` cuts at every occurrence.
 */
module JsString {
  import opened Wrappers

  /** JavaScript truthiness of a string that may be `undefined`: present and not empty. */
  predicate Truthy(s: Option<string>) { s.Some? && s.value != "" }

  /** `s.replace(c, r)`: the first `c` becomes `r`, everything else stays. */
  function ReplaceFirst(s: string, c: char, r: string): (t: string)
    ensures c !in s ==> t == s
  {
    if |s| == 0 then s
    else if s[0] == c then r + s[1..]
    else [s[0]] + ReplaceFirst(s[1..], c, r)
  }

  /** `s.replace(/c/g, '')`: every `c` is dropped, the other characters keep their order. */
  function RemoveAll(s: string, c: char): (t: string)
    ensures c !in t
    ensures c !in s ==> t == s
  {
    if |s| == 0 then s
    else if s[0] == c then RemoveAll(s[1..], c)
    else [s[0]] + RemoveAll(s[1..], c)
  }

  /** `replace` with a string pattern acts at the first occurrence only: the text before it and after it stay. */
  lemma ReplaceFirstAt(p: string, c: char, q: string, r: string)
    requires c !in p
    ensures ReplaceFirst(p + ([c] + q), c, r) == p + (r + q)
  {
    ReplaceFirstAfter(p, [c] + q, c, r);
    assert ([c] + q)[1..] == q;
  }

  /** `replace(c, r)` trades one `c` for the characters of `r`, when there is a `c`. */
  lemma {:induction false} ReplaceFirstCount(s: string, c: char, r: string)
    ensures multiset(ReplaceFirst(s, c, r)) ==
      if c in s then multiset(s) - multiset{c} + multiset(r) else multiset(s)
  {
    if |s| > 0 {
      assert s == [s[0]] + s[1..];
      assert multiset(s) == multiset{s[0]} + multiset(s[1..]);
      if s[0] != c {
        ReplaceFirstCount(s[1..], c, r);
        assert c in s <==> c in s[1..];
      }
    }
  }

  /** Removal keeps every other character, as many times as it occurs. */
  lemma {:induction false} RemoveAllKeeps(s: string, c: char, x: char)
    requires x != c
    ensures multiset(RemoveAll(s, c))[x] == multiset(s)[x]
  {
    if |s| > 0 {
      RemoveAllKeeps(s[1..], c, x);
      assert s == [s[0]] + s[1..];
    }
  }

  lemma {:induction false} RemoveAllAppend(a: string, b: string, c: char)
    ensures RemoveAll(a + b, c) == RemoveAll(a, c) + RemoveAll(b, c)
  {
    if |a| > 0 {
      assert (a + b)[1..] == a[1..] + b;
      RemoveAllAppend(a[1..], b, c);
    } else {
      assert a + b == b;
    }
  }

  lemma {:induction false} ReplaceFirstAfter(a: string, b: string, c: char, r: string)
    requires c !in a
    ensures ReplaceFirst(a + b, c, r) == a + ReplaceFirst(b, c, r)
  {
    if |a| > 0 {
      assert (a + b)[0] == a[0] && a[0] != c;
      assert (a + b)[1..] == a[1..] + b;
      assert ReplaceFirst(a + b, c, r) == [a[0]] + ReplaceFirst(a[1..] + b, c, r);
      ReplaceFirstAfter(a[1..], b, c, r);
      assert a == [a[0]] + a[1..];
      assert [a[0]] + (a[1..] + ReplaceFirst(b, c, r)) == a + ReplaceFirst(b, c, r);
    } else {
      assert a + b == b;
    }
  }

  /** `s.split(sep)`: the pieces between consecutive separators, always at least one. */
  function Split(s: string, sep: char): (pieces: seq<string>)
    ensures |pieces| == multiset(s)[sep] + 1
    ensures forall i :: 0 <= i < |pieces| ==> sep !in pieces[i]
  {
    if |s| == 0 then [""]
    else
      assert s == [s[0]] + s[1..];
      var rest := Split(s[1..], sep);
      if s[0] == sep then [""] + rest
      else [[s[0]] + rest[0]] + rest[1..]
  }

  /** `pieces.join(sep)`. */
  function Join(pieces: seq<string>, sep: char): string
  {
    if |pieces| == 0 then ""
    else if |pieces| == 1 then pieces[0]
    else pieces[0] + [sep] + Join(pieces[1..], sep)
  }

  /** `pieces.join('')`. */
  function Concat(pieces: seq<string>): string
  {
    if |pieces| == 0 then "" else pieces[0] + Concat(pieces[1..])
  }

  /** Prefixing a character to the first piece prefixes it to the join. */
  lemma JoinPrepend(x: char, rest: seq<string>, sep: char)
    requires |rest| >= 1
    ensures Join([[x] + rest[0]] + rest[1..], sep) == [x] + Join(rest, sep)
  {
    var pieces := [[x] + rest[0]] + rest[1..];
    if |rest| == 1 {
      assert pieces == [[x] + rest[0]];
    } else {
      assert pieces[1..] == rest[1..];
      assert Join(pieces, sep) == ([x] + rest[0]) + [sep] + Join(rest[1..], sep);
      assert Join(rest, sep) == rest[0] + [sep] + Join(rest[1..], sep);
    }
  }

  /** Splitting text that starts with something other than the separator extends the first piece. */
  lemma SplitCons(s: string, sep: char)
    requires |s| > 0 && s[0] != sep
    ensures Split(s, sep) == [[s[0]] + Split(s[1..], sep)[0]] + Split(s[1..], sep)[1..]
  {
  }

  /** Splitting text that starts with the separator adds an empty first piece. */
  lemma SplitConsSeparator(s: string, sep: char)
    requires |s| > 0 && s[0] == sep
    ensures Split(s, sep) == [""] + Split(s[1..], sep)
  {
  }

  /** Joining the pieces of a split gives the original text back. */
  lemma {:induction false} JoinSplit(s: string, sep: char)
    ensures Join(Split(s, sep), sep) == s
  {
    if |s| > 0 {
      var rest := Split(s[1..], sep);
      JoinSplit(s[1..], sep);
      if s[0] == sep {
        SplitConsSeparator(s, sep);
        assert ([""] + rest)[1..] == rest;
        assert Join([""] + rest, sep) == [sep] + s[1..];
      } else {
        SplitCons(s, sep);
        JoinPrepend(s[0], rest, sep);
      }
      assert [s[0]] + s[1..] == s;
    }
  }

  /** Splitting separator-free pieces joined with the separator gives the pieces back. */
  lemma {:induction false} SplitJoin(pieces: seq<string>, sep: char)
    requires |pieces| >= 1
    requires forall i :: 0 <= i < |pieces| ==> sep !in pieces[i]
    ensures Split(Join(pieces, sep), sep) == pieces
  {
    if |pieces| == 1 {
      SplitNoSeparator(pieces[0], sep);
    } else {
      SplitJoin(pieces[1..], sep);
      SplitAfter(pieces[0], Join(pieces[1..], sep), sep);
    }
  }

  lemma {:induction false} SplitNoSeparator(p: string, sep: char)
    requires sep !in p
    ensures Split(p, sep) == [p]
  {
    if |p| > 0 {
      SplitNoSeparator(p[1..], sep);
      assert [p[0]] + p[1..] == p;
    }
  }

  /** Splitting `p + sep + t`, where `p` holds no separator, starts with the piece `p`. */
  lemma {:induction false} SplitAfter(p: string, t: string, sep: char)
    requires sep !in p
    ensures Split(p + [sep] + t, sep) == [p] + Split(t, sep)
  {
    if |p| == 0 {
      assert p + [sep] + t == [sep] + t;
      assert ([sep] + t)[1..] == t;
    } else {
      var s := p + [sep] + t;
      assert s[1..] == p[1..] + [sep] + t;
      SplitAfter(p[1..], t, sep);
      assert [p[0]] + p[1..] == p;
    }
  }

  /** Dropping the separators of a join of separator-free pieces concatenates the pieces. */
  lemma {:induction false} RemoveAllJoin(pieces: seq<string>, sep: char)
    requires forall i :: 0 <= i < |pieces| ==> sep !in pieces[i]
    ensures RemoveAll(Join(pieces, sep), sep) == Concat(pieces)
  {
    if |pieces| == 1 {
      assert Concat(pieces) == pieces[0] + Concat([]);
    } else if |pieces| > 1 {
      RemoveAllJoin(pieces[1..], sep);
      RemoveAllAppend(pieces[0] + [sep], Join(pieces[1..], sep), sep);
      RemoveAllAppend(pieces[0], [sep], sep);
    }
  }
}
