/** The PHP string primitives the request engine leans on: `explode` with a
    one-character delimiter, `implode`, `trim` with its default character
    list, and the prefix/suffix tests used to state facts about feed names. */
module PhpStrings {

  /** Number of occurrences of `c` in `s`. */
  function Count(c: char, s: string): nat
  {
    if |s| == 0 then 0
    else (if s[0] == c then 1 else 0) + Count(c, s[1..])
  }

  lemma CountAppend(c: char, a: string, b: string)
    ensures Count(c, a + b) == Count(c, a) + Count(c, b)
  {
    if |a| > 0 {
      assert (a + b)[1..] == a[1..] + b;
      CountAppend(c, a[1..], b);
    } else {
      assert a + b == b;
    }
  }

  lemma CountZeroIffAbsent(c: char, s: string)
    ensures Count(c, s) == 0 <==> c !in s
  {
    if |s| > 0 {
      CountZeroIffAbsent(c, s[1..]);
      assert s == [s[0]] + s[1..];
    }
  }

  /** `explode(sep, s)` for a one-character separator: the pieces of `s` between
      consecutive occurrences of `sep`. The empty string yields one empty piece. */
  function Explode(sep: char, s: string): (pieces: seq<string>)
    ensures |pieces| == Count(sep, s) + 1
    ensures forall i :: 0 <= i < |pieces| ==> sep !in pieces[i]
    decreases |s|
  {
    if |s| == 0 then [""]
    else
      var rest := Explode(sep, s[1..]);
      if s[0] == sep then [""] + rest
      else [[s[0]] + rest[0]] + rest[1..]
  }

  /** `implode(sep, parts)`: the parts with one `sep` between neighbours. */
  function Join(sep: string, parts: seq<string>): string
  {
    if |parts| == 0 then ""
    else if |parts| == 1 then parts[0]
    else parts[0] + sep + Join(sep, parts[1..])
  }

  /** Exploding and re-joining gives back the original string: `explode`
      loses nothing but the separators. */
  lemma {:induction false} JoinExplode(sep: char, s: string)
    ensures Join([sep], Explode(sep, s)) == s
    decreases |s|
  {
    if |s| > 0 {
      var rest := Explode(sep, s[1..]);
      JoinExplode(sep, s[1..]);
      if s[0] == sep {
        assert Explode(sep, s) == [""] + rest;
        assert s == [sep] + s[1..];
      } else {
        var pieces := Explode(sep, s);
        assert pieces == [[s[0]] + rest[0]] + rest[1..];
        if |rest| == 1 {
          assert rest == [rest[0]];
        } else {
          assert pieces[1..] == rest[1..];
          assert Join([sep], rest) == rest[0] + [sep] + Join([sep], rest[1..]);
        }
        assert s == [s[0]] + s[1..];
      }
    }
  }

  /** Conversely, joining parts that do not contain the separator and exploding
      the result gives back the parts. */
  lemma {:induction false} ExplodeJoin(sep: char, parts: seq<string>)
    requires |parts| >= 1
    requires forall i :: 0 <= i < |parts| ==> sep !in parts[i]
    ensures Explode(sep, Join([sep], parts)) == parts
    decreases |parts|, |parts[0]|
  {
    var p := parts[0];
    if |p| == 0 {
      if |parts| == 1 {
      } else {
        var s := Join([sep], parts);
        assert s == [sep] + Join([sep], parts[1..]);
        assert s[1..] == Join([sep], parts[1..]);
        ExplodeJoin(sep, parts[1..]);
        assert parts == [""] + parts[1..];
      }
    } else {
      var s := Join([sep], parts);
      var parts' := [p[1..]] + parts[1..];
      assert p[0] != sep by { assert p[0] in p; }
      assert forall i :: 0 <= i < |parts'| ==> sep !in parts'[i] by {
        forall i | 0 <= i < |parts'|
          ensures sep !in parts'[i]
        {
          if i == 0 {
            assert forall x :: x in p[1..] ==> x in p;
          } else {
            assert parts'[i] == parts[i];
          }
        }
      }
      assert s[1..] == Join([sep], parts') by {
        if |parts| == 1 {
        } else {
          assert s == p + [sep] + Join([sep], parts[1..]);
          assert parts'[1..] == parts[1..];
          assert Join([sep], parts') == p[1..] + [sep] + Join([sep], parts[1..]);
        }
      }
      assert s[0] == p[0];
      ExplodeJoin(sep, parts');
      var rest := Explode(sep, s[1..]);
      assert rest == parts';
      assert Explode(sep, s) == [[p[0]] + p[1..]] + parts[1..];
      assert [p[0]] + p[1..] == p;
      assert [p] + parts[1..] == parts;
    }
  }

  /** A token of the form `key=value` is exploded into exactly two pieces iff it
      contains exactly one `=`. */
  lemma ExplodesInTwo(sep: char, s: string)
    ensures |Explode(sep, s)| == 2 <==> Count(sep, s) == 1
  {
  }

  /** The characters PHP's `trim` removes by default: space, tab, newline,
      carriage return, NUL and vertical tab. */
  predicate IsTrimmable(c: char)
  {
    c == ' ' || c == '\t' || c == '\n' || c == '\r' || c == '\U{0000}' || c == '\U{000B}'
  }

  /** `ltrim`: the longest suffix of `s` that does not start with a trimmable
      character. */
  function TrimLeft(s: string): (r: string)
    ensures |r| <= |s| && r == s[|s| - |r|..]
    ensures forall k :: 0 <= k < |s| - |r| ==> IsTrimmable(s[k])
    ensures |r| > 0 ==> !IsTrimmable(r[0])
  {
    if |s| > 0 && IsTrimmable(s[0]) then TrimLeft(s[1..]) else s
  }

  /** `rtrim`: the longest prefix of `s` that does not end with a trimmable
      character. */
  function TrimRight(s: string): (r: string)
    ensures |r| <= |s| && r == s[..|r|]
    ensures forall k :: |r| <= k < |s| ==> IsTrimmable(s[k])
    ensures |r| > 0 ==> !IsTrimmable(r[|r| - 1])
  {
    if |s| > 0 && IsTrimmable(s[|s| - 1]) then TrimRight(s[..|s| - 1]) else s
  }

  /** `trim`: `s` with every leading and trailing trimmable character removed;
      what is left is an infix of `s` that neither starts nor ends with one. */
  function Trim(s: string): (r: string)
    ensures exists i, j :: 0 <= i <= j <= |s| && r == s[i..j]
                           && (forall k :: 0 <= k < i ==> IsTrimmable(s[k]))
                           && (forall k :: j <= k < |s| ==> IsTrimmable(s[k]))
    ensures |r| > 0 ==> !IsTrimmable(r[0]) && !IsTrimmable(r[|r| - 1])
  {
    var l := TrimLeft(s);
    var r := TrimRight(l);
    var i := |s| - |l|;
    assert r == s[i..i + |r|];
    r
  }

  /** A string that neither starts nor ends with a trimmable character is
      left as it is. */
  lemma TrimUntouched(s: string)
    requires |s| > 0 ==> !IsTrimmable(s[0]) && !IsTrimmable(s[|s| - 1])
    ensures Trim(s) == s
  {
    assert TrimLeft(s) == s;
    assert TrimRight(s) == s;
  }

  /** Trimming only drops characters: everything in `Trim(s)` is in `s`. */
  lemma TrimInfix(s: string)
    ensures forall c :: c in Trim(s) ==> c in s
  {
    var i, j :| 0 <= i <= j <= |s| && Trim(s) == s[i..j];
    assert forall k :: 0 <= k < j - i ==> s[i..j][k] == s[i + k];
  }

  /** Trimming a string that was already trimmed changes nothing. */
  lemma TrimIdempotent(s: string)
    ensures Trim(Trim(s)) == Trim(s)
  {
    var t := Trim(s);
    if |t| > 0 {
      assert TrimLeft(t) == t;
      assert TrimRight(t) == t;
    }
  }

  predicate StartsWith(s: string, prefix: string)
  {
    |prefix| <= |s| && forall k :: 0 <= k < |prefix| ==> s[k] == prefix[k]
  }

  /** Strings whose first characters differ do not extend one another. */
  lemma FirstCharMismatch()
    ensures forall s, p {:trigger StartsWith(s, p)} :: 0 < |p| && 0 < |s| && s[0] != p[0] ==> !StartsWith(s, p)
  {
  }

  predicate EndsWith(s: string, suffix: string)
  {
    |suffix| <= |s| && s[|s| - |suffix|..] == suffix
  }

  /** A concatenation starts with its first part and ends with its second. */
  lemma ConcatEnds(a: string, b: string)
    ensures StartsWith(a + b, a) && EndsWith(a + b, b)
  {
    assert (a + b)[|a|..] == b;
  }
}
