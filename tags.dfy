/** Text handling in `createPost`/`updatePost`: the comma-separated tag string and
    `String.prototype.trim`. */
module Tags {
  import opened Wrappers
  import opened Seqs

  /** The code points `trim` strips: ECMAScript's WhiteSpace and LineTerminator characters. */
  predicate IsTrimmable(c: char) {
    var n := c as int;
    n == 0x09 || n == 0x0A || n == 0x0B || n == 0x0C || n == 0x0D || n == 0x20 || n == 0xA0 ||
    n == 0x1680 || (0x2000 <= n <= 0x200A) || n == 0x2028 || n == 0x2029 || n == 0x202F ||
    n == 0x205F || n == 0x3000 || n == 0xFEFF
  }

  /** Every character of `s` is trimmable (so `s.trim()` is the falsy empty string). */
  predicate AllTrimmable(s: string) {
    forall i :: 0 <= i < |s| ==> IsTrimmable(s[i])
  }

  function TrimStart(s: string): string
    decreases |s|
  {
    if s != [] && IsTrimmable(s[0]) then TrimStart(s[1..]) else s
  }

  function TrimEnd(s: string): string
    decreases |s|
  {
    if s != [] && IsTrimmable(s[|s| - 1]) then TrimEnd(s[..|s| - 1]) else s
  }

  /** `s.trim()`. */
  function Trim(s: string): string {
    TrimEnd(TrimStart(s))
  }

  /** `s.replace(/ /g, "")`: only U+0020 is removed. */
  function RemoveSpaces(s: string): string
    decreases |s|
  {
    if s == [] then []
    else (if s[0] == ' ' then [] else [s[0]]) + RemoveSpaces(s[1..])
  }

  /** How many times `c` occurs in `s`. */
  function Count(s: string, c: char): nat
    decreases |s|
  {
    if s == [] then 0 else (if s[0] == c then 1 else 0) + Count(s[1..], c)
  }

  /** `s.split(sep)` for a one-character separator: there is always one more piece than there
      are separators, and the empty string splits into one empty piece. */
  function Split(s: string, sep: char): (r: seq<string>)
    ensures |r| == Count(s, sep) + 1
    decreases |s|
  {
    if s == [] then [""]
    else
      var rest := Split(s[1..], sep);
      if s[0] == sep then [""] + rest else [[s[0]] + rest[0]] + rest[1..]
  }

  /** `parts.join(sep)`. */
  function Join(parts: seq<string>, sep: char): string
    decreases |parts|
  {
    if parts == [] then ""
    else if |parts| == 1 then parts[0]
    else parts[0] + [sep] + Join(parts[1..], sep)
  }

  /** The `tags` array built from the form's tag string: empty when the string is absent or
      trims to nothing, else the string with its spaces removed, split on commas. */
  function ParseTags(tags: Option<string>): seq<string> {
    if tags.Some? && Trim(tags.value) != "" then Split(RemoveSpaces(tags.value), ',') else []
  }

  // ---------------------------------------------------------------- trim

  lemma {:induction false} TrimStartSpec(s: string)
    ensures |TrimStart(s)| <= |s| && TrimStart(s) == s[|s| - |TrimStart(s)|..]
    ensures TrimStart(s) == [] <==> AllTrimmable(s)
    ensures TrimStart(s) != [] ==> !IsTrimmable(TrimStart(s)[0])
    ensures AllTrimmable(s[..|s| - |TrimStart(s)|])
    decreases |s|
  {
    if s != [] && IsTrimmable(s[0]) {
      TrimStartSpec(s[1..]);
      var n := |s| - |TrimStart(s)|;
      forall i | 0 <= i < n ensures IsTrimmable(s[..n][i]) {
        if i > 0 { assert s[..n][i] == s[1..][..n - 1][i - 1]; }
      }
      assert s[1..][|s| - 1 - |TrimStart(s)|..] == s[|s| - |TrimStart(s)|..];
      assert AllTrimmable(s[1..]) ==> AllTrimmable(s) by {
        if AllTrimmable(s[1..]) {
          forall i | 0 <= i < |s| ensures IsTrimmable(s[i]) {
            if i > 0 { assert s[i] == s[1..][i - 1]; }
          }
        }
      }
    }
  }

  lemma {:induction false} TrimEndSpec(s: string)
    ensures |TrimEnd(s)| <= |s| && TrimEnd(s) == s[..|TrimEnd(s)|]
    ensures TrimEnd(s) == [] <==> AllTrimmable(s)
    ensures TrimEnd(s) != [] ==> !IsTrimmable(TrimEnd(s)[|TrimEnd(s)| - 1])
    ensures AllTrimmable(s[|TrimEnd(s)|..])
    decreases |s|
  {
    if s != [] && IsTrimmable(s[|s| - 1]) {
      var t := s[..|s| - 1];
      TrimEndSpec(t);
      var n := |TrimEnd(s)|;
      forall i | n <= i < |s| ensures IsTrimmable(s[i]) {
        if i < |s| - 1 { assert s[i] == t[n..][i - n]; }
      }
      assert forall i :: 0 <= i < |s| - n ==> s[n..][i] == s[n + i];
      assert t[..|TrimEnd(s)|] == s[..|TrimEnd(s)|];
      assert AllTrimmable(t) ==> AllTrimmable(s) by {
        if AllTrimmable(t) {
          forall i | 0 <= i < |s| ensures IsTrimmable(s[i]) {
            if i < |s| - 1 { assert s[i] == t[i]; }
          }
        }
      }
    }
  }

  /** `trim` returns the part of `s` between its leading and trailing whitespace: a slice
      of `s` that neither starts nor ends with whitespace, with only whitespace cut off on
      either side, empty exactly when `s` is all whitespace. */
  lemma TrimSpec(s: string)
    ensures |TrimStart(s)| <= |s|
    ensures var t := Trim(s); var a := |s| - |TrimStart(s)|;
      a + |t| <= |s| && t == s[a..a + |t|] &&
      AllTrimmable(s[..a]) && AllTrimmable(s[a + |t|..]) &&
      (t == [] <==> AllTrimmable(s)) &&
      (t != [] ==> !IsTrimmable(t[0]) && !IsTrimmable(t[|t| - 1]))
  {
    var u := TrimStart(s);
    TrimStartSpec(s);
    TrimEndSpec(u);
    var a := |s| - |u|;
    assert u[..|Trim(s)|] == s[a..a + |Trim(s)|];
    assert u[|Trim(s)|..] == s[a + |Trim(s)|..];
    if Trim(s) != [] {
      assert Trim(s)[0] == u[0];
    }
  }

  // ---------------------------------------------------------------- split and join

  /** Removing spaces keeps the other characters in order. */
  lemma {:induction false} RemoveSpacesOrder(s: string)
    ensures IsSubsequence(RemoveSpaces(s), s)
    decreases |s|
  {
    if s != [] {
      RemoveSpacesOrder(s[1..]);
      var r := RemoveSpaces(s);
      if s[0] != ' ' {
        assert r == [s[0]] + RemoveSpaces(s[1..]);
        assert r[0] == s[0] && r[1..] == RemoveSpaces(s[1..]);
      } else {
        assert r == RemoveSpaces(s[1..]);
      }
    }
  }

  /** Removing spaces drops exactly the spaces. */
  lemma {:induction false} RemoveSpacesMultiset(s: string)
    ensures multiset(RemoveSpaces(s)) == multiset(s)[' ' := 0]
    decreases |s|
  {
    if s != [] {
      RemoveSpacesMultiset(s[1..]);
      assert s == [s[0]] + s[1..];
      assert multiset(s) == multiset{s[0]} + multiset(s[1..]);
    }
  }

  /** Removing spaces leaves no space and keeps every other character, in order, so every
      comma is kept. */
  lemma RemoveSpacesSpec(s: string)
    ensures ' ' !in RemoveSpaces(s)
    ensures IsSubsequence(RemoveSpaces(s), s)
    ensures multiset(RemoveSpaces(s)) == multiset(s)[' ' := 0]
    ensures Count(RemoveSpaces(s), ',') == Count(s, ',')
  {
    RemoveSpacesOrder(s);
    RemoveSpacesMultiset(s);
    RemoveSpacesCommas(s);
    assert multiset(RemoveSpaces(s))[' '] == 0;
  }

  /** Removing spaces keeps the number of commas. */
  lemma {:induction false} RemoveSpacesCommas(s: string)
    ensures Count(RemoveSpaces(s), ',') == Count(s, ',')
    decreases |s|
  {
    if s != [] {
      RemoveSpacesCommas(s[1..]);
      CountAppend((if s[0] == ' ' then [] else [s[0]]), RemoveSpaces(s[1..]), ',');
    }
  }

  lemma {:induction false} CountAppend(a: string, b: string, c: char)
    ensures Count(a + b, c) == Count(a, c) + Count(b, c)
    decreases |a|
  {
    if a == [] {
      assert a + b == b;
    } else {
      assert (a + b)[1..] == a[1..] + b;
      CountAppend(a[1..], b, c);
    }
  }

  /** Every piece is made of characters of `s` other than the separator. */
  lemma {:induction false} SplitPieces(s: string, sep: char)
    ensures forall p, ch :: p in Split(s, sep) && ch in p ==> ch in s && ch != sep
    decreases |s|
  {
    if s != [] {
      SplitPieces(s[1..], sep);
      var rest := Split(s[1..], sep);
      forall p, ch | p in Split(s, sep) && ch in p
        ensures ch in s && ch != sep
      {
        if s[0] != sep && p == [s[0]] + rest[0] {
          assert ch == s[0] || ch in rest[0];
        } else {
          assert p in rest;
        }
      }
    }
  }

  /** Joining the pieces gives the string back. */
  lemma {:induction false} JoinSplit(s: string, sep: char)
    ensures Join(Split(s, sep), sep) == s
    decreases |s|
  {
    if s != [] {
      var rest := Split(s[1..], sep);
      JoinSplit(s[1..], sep);
      assert s == [s[0]] + s[1..];
      if s[0] == sep {
        assert Split(s, sep) == [""] + rest;
        assert ([""] + rest)[1..] == rest;
      } else if |rest| == 1 {
        assert Split(s, sep) == [[s[0]] + rest[0]];
      } else {
        var pieces := Split(s, sep);
        assert pieces[1..] == rest[1..];
        assert Join(rest, sep) == rest[0] + [sep] + Join(rest[1..], sep);
      }
    }
  }

  /** Splitting a piece-free prefix onto the front of a string glues it to the first piece. */
  lemma {:induction false} SplitPrefix(p: string, u: string, sep: char)
    requires sep !in p
    ensures Split(p + u, sep) == [p + Split(u, sep)[0]] + Split(u, sep)[1..]
    decreases |p|
  {
    if p == [] {
      assert p + u == u && p + Split(u, sep)[0] == Split(u, sep)[0];
      assert [Split(u, sep)[0]] + Split(u, sep)[1..] == Split(u, sep);
    } else {
      assert (p + u)[0] == p[0] && (p + u)[1..] == p[1..] + u;
      SplitPrefix(p[1..], u, sep);
      assert [p[0]] + (p[1..] + Split(u, sep)[0]) == p + Split(u, sep)[0];
    }
  }

  /** Splitting what was joined gives the pieces back, when no piece holds the separator. */
  lemma {:induction false} SplitJoin(parts: seq<string>, sep: char)
    requires parts != [] && forall p :: p in parts ==> sep !in p
    ensures Split(Join(parts, sep), sep) == parts
    decreases |parts|
  {
    if |parts| == 1 {
      SplitPrefix(parts[0], "", sep);
      assert parts[0] + "" == parts[0];
    } else {
      var w := Join(parts[1..], sep);
      SplitJoin(parts[1..], sep);
      assert parts[0] + [sep] + w == parts[0] + ([sep] + w);
      SplitPrefix(parts[0], [sep] + w, sep);
      assert ([sep] + w)[0] == sep && ([sep] + w)[1..] == w;
      assert Split([sep] + w, sep) == [""] + parts[1..];
      assert ([""] + parts[1..])[1..] == parts[1..] && parts[0] + "" == parts[0];
      assert parts == [parts[0]] + parts[1..];
    }
  }

  /** The tag list: empty for an absent or all-whitespace string; otherwise no tag holds a
      space or a comma, there is one tag more than there are commas, and joining the tags
      with "," gives the input without its spaces. */
  lemma ParseTagsSpec(tags: Option<string>)
    ensures tags.None? || AllTrimmable(tags.value) ==> ParseTags(tags) == []
    ensures tags.Some? && !AllTrimmable(tags.value) ==>
      var r := ParseTags(tags);
      (forall t :: t in r ==> ' ' !in t && ',' !in t) &&
      |r| == Count(tags.value, ',') + 1 &&
      Join(r, ',') == RemoveSpaces(tags.value)
  {
    if tags.Some? {
      TrimSpec(tags.value);
      var stripped := RemoveSpaces(tags.value);
      RemoveSpacesSpec(tags.value);
      SplitPieces(stripped, ',');
      JoinSplit(stripped, ',');
    }
  }
}
