/**
 * The JavaScript string operations the authentication slice relies on:
 * `String.prototype.trim`, `String.prototype.toLowerCase` (on ASCII letters)
 * and `String.prototype.split` with a one-character separator.
 */
module JsString {
  import opened Wrappers

  /** JavaScript truthiness of a value that is either a string or absent. */
  predicate Truthy(v: Option<string>) {
    v.Some? && v.value != ""
  }

  /** The characters `trim` strips: ECMAScript WhiteSpace and LineTerminator. */
  predicate IsWhitespace(c: char) {
    || c == '\U{0009}' || c == '\U{000A}' || c == '\U{000B}' || c == '\U{000C}'
    || c == '\U{000D}' || c == ' ' || c == '\U{00A0}' || c == '\U{1680}'
    || ('\U{2000}' <= c <= '\U{200A}')
    || c == '\U{2028}' || c == '\U{2029}' || c == '\U{202F}' || c == '\U{205F}'
    || c == '\U{3000}' || c == '\U{FEFF}'
  }

  predicate AllWhitespace(s: string) {
    forall i :: 0 <= i < |s| ==> IsWhitespace(s[i])
  }

  /** `s` has no whitespace at either end (what `trim` guarantees of its result). */
  predicate Trimmed(s: string) {
    s == [] || (!IsWhitespace(s[0]) && !IsWhitespace(s[|s| - 1]))
  }

  /** The number of whitespace characters `s` starts with. */
  function LeadingWhitespace(s: string): (n: nat)
    ensures n <= |s|
    ensures forall i :: 0 <= i < n ==> IsWhitespace(s[i])
    ensures n < |s| ==> !IsWhitespace(s[n])
  {
    if |s| > 0 && IsWhitespace(s[0]) then
      var m := LeadingWhitespace(s[1..]);
      m + 1
    else 0
  }

  /** The number of whitespace characters `s` ends with. */
  function TrailingWhitespace(s: string): (n: nat)
    ensures n <= |s|
    ensures forall i :: |s| - n <= i < |s| ==> IsWhitespace(s[i])
    ensures n < |s| ==> !IsWhitespace(s[|s| - n - 1])
  {
    if |s| > 0 && IsWhitespace(s[|s| - 1]) then
      var m := TrailingWhitespace(s[..|s| - 1]);
      m + 1
    else 0
  }

  /** Unless `s` is all whitespace, its leading and trailing whitespace do not meet. */
  lemma {:induction false} LeadingBeforeTrailing(s: string)
    requires LeadingWhitespace(s) < |s|
    ensures LeadingWhitespace(s) < |s| - TrailingWhitespace(s)
  {
  }

  /**
   * `String.prototype.trim`: the part of `s` between its leading and its
   * trailing whitespace.
   */
  function Trim(s: string): (r: string)
    ensures Trimmed(r) && |r| <= |s|
    ensures AllWhitespace(s) <==> r == []
    ensures Trimmed(s) ==> r == s
  {
    var lead := LeadingWhitespace(s);
    if lead == |s| then
      []
    else
      LeadingBeforeTrailing(s);
      var trail := TrailingWhitespace(s);
      assert !AllWhitespace(s) by { assert !IsWhitespace(s[lead]); }
      assert Trimmed(s) ==> lead == 0 && trail == 0 by {
        if Trimmed(s) {
          assert !IsWhitespace(s[0]) && !IsWhitespace(s[|s| - 1]);
        }
      }
      assert s[0..|s| - 0] == s;
      s[lead..|s| - trail]
  }

  lemma {:induction false} LeadingWhitespaceOfPadded(pre: string, s: string)
    requires AllWhitespace(pre)
    ensures LeadingWhitespace(pre + s) == |pre| + LeadingWhitespace(s)
  {
    if pre != [] {
      assert IsWhitespace((pre + s)[0]);
      assert (pre + s)[1..] == pre[1..] + s;
      LeadingWhitespaceOfPadded(pre[1..], s);
    } else {
      assert pre + s == s;
    }
  }

  lemma {:induction false} TrailingWhitespaceOfPadded(s: string, post: string)
    requires AllWhitespace(post)
    ensures TrailingWhitespace(s + post) == |post| + TrailingWhitespace(s)
  {
    if post != [] {
      var last := |s + post| - 1;
      assert IsWhitespace((s + post)[last]);
      assert (s + post)[..last] == s + post[..|post| - 1];
      TrailingWhitespaceOfPadded(s, post[..|post| - 1]);
    } else {
      assert s + post == s;
    }
  }

  lemma {:induction false} LeadingWhitespaceOfExtended(s: string, post: string)
    requires LeadingWhitespace(s) < |s|
    ensures LeadingWhitespace(s + post) == LeadingWhitespace(s)
  {
    assert (s + post)[0] == s[0];
    if IsWhitespace(s[0]) {
      assert (s + post)[1..] == s[1..] + post;
      LeadingWhitespaceOfExtended(s[1..], post);
    }
  }

  lemma {:induction false} TrailingWhitespaceOfExtended(pre: string, s: string)
    requires TrailingWhitespace(s) < |s|
    ensures TrailingWhitespace(pre + s) == TrailingWhitespace(s)
  {
    assert (pre + s)[|pre + s| - 1] == s[|s| - 1];
    if IsWhitespace(s[|s| - 1]) {
      assert (pre + s)[..|pre + s| - 1] == pre + s[..|s| - 1];
      TrailingWhitespaceOfExtended(pre, s[..|s| - 1]);
    }
  }

  /** Trimming is taking the slice between the two whitespace runs. */
  lemma {:induction false} TrimIsSlice(s: string, lead: nat, trail: nat)
    requires lead == LeadingWhitespace(s) < |s| && trail == TrailingWhitespace(s)
    ensures lead < |s| - trail && Trim(s) == s[lead..|s| - trail]
  {
  }

  lemma {:induction false} PaddedWhitespaceTrimsToEmpty(pre: string, s: string, post: string)
    requires AllWhitespace(pre) && AllWhitespace(post) && LeadingWhitespace(s) == |s|
    ensures Trim(pre + s + post) == []
  {
  }

  lemma {:induction false} PaddedTrimsToSame(pre: string, s: string, post: string)
    requires AllWhitespace(pre) && AllWhitespace(post) && LeadingWhitespace(s) < |s|
    ensures Trim(pre + s + post) == Trim(s)
  {
    var all := pre + s + post;
    var lead, trail := LeadingWhitespace(s), TrailingWhitespace(s);
    TrimIsSlice(s, lead, trail);
    assert all == pre + (s + post);
    LeadingWhitespaceOfExtended(s, post);
    LeadingWhitespaceOfPadded(pre, s + post);
    assert LeadingWhitespace(all) == |pre| + lead;
    TrailingWhitespaceOfExtended(pre, s);
    TrailingWhitespaceOfPadded(pre + s, post);
    assert TrailingWhitespace(all) == |post| + trail;
    TrimIsSlice(all, |pre| + lead, |post| + trail);
    var hi := |s| - trail;
    assert |all| - (|post| + trail) == |pre| + hi;
    SliceOfPadded(pre, s, post, lead, hi);
  }

  lemma {:induction false} SliceOfPadded(pre: string, s: string, post: string, i: nat, j: nat)
    requires i <= j <= |s|
    ensures (pre + s + post)[|pre| + i..|pre| + j] == s[i..j]
  {
  }

  /** Whitespace added around a string does not change its trimmed form. */
  lemma {:induction false} TrimIgnoresPadding(pre: string, s: string, post: string)
    requires AllWhitespace(pre) && AllWhitespace(post)
    ensures Trim(pre + s + post) == Trim(s)
  {
    if LeadingWhitespace(s) == |s| {
      PaddedWhitespaceTrimsToEmpty(pre, s, post);
    } else {
      PaddedTrimsToSame(pre, s, post);
    }
  }

  /** `toLowerCase` on one character; letters outside A–Z are left as they are. */
  function LowerChar(c: char): char {
    if 'A' <= c <= 'Z' then (c as int + 32) as char else c
  }

  predicate IsUpperAscii(c: char) { 'A' <= c <= 'Z' }

  /** No ASCII upper-case letter occurs in `s`. */
  predicate IsLowerCase(s: string) {
    forall i :: 0 <= i < |s| ==> !IsUpperAscii(s[i])
  }

  /** `String.prototype.toLowerCase`, restricted to the ASCII letters. */
  function Lower(s: string): (r: string)
    ensures |r| == |s| && IsLowerCase(r)
    ensures IsLowerCase(s) ==> r == s
    ensures forall i :: 0 <= i < |s| ==> r[i] == s[i] || (IsUpperAscii(s[i]) && r[i] as int == s[i] as int + 32)
  {
    seq(|s|, i requires 0 <= i < |s| => LowerChar(s[i]))
  }

  /**
   * `s.split(sep)` for a one-character `sep`: the maximal pieces of `s` that
   * do not contain `sep`, in order. `"".split(" ")` is `[""]`.
   */
  function Split(s: string, sep: char): (fields: seq<string>)
    ensures |fields| >= 1
    decreases |s|
  {
    if |s| == 0 then [""]
    else
      var rest := Split(s[1..], sep);
      if s[0] == sep then [""] + rest
      else [[s[0]] + rest[0]] + rest[1..]
  }

  /** `fields.join(sep)`, the inverse of `Split`. */
  function Join(fields: seq<string>, sep: char): string
    requires |fields| >= 1
    decreases |fields|
  {
    if |fields| == 1 then fields[0] else fields[0] + [sep] + Join(fields[1..], sep)
  }

  predicate NoSeparator(fields: seq<string>, sep: char) {
    forall i :: 0 <= i < |fields| ==> sep !in fields[i]
  }

  /** Splitting loses nothing, and no piece contains the separator. */
  lemma {:induction false} JoinSplit(s: string, sep: char)
    ensures Join(Split(s, sep), sep) == s
    ensures NoSeparator(Split(s, sep), sep)
    decreases |s|
  {
    if |s| > 0 {
      var rest := Split(s[1..], sep);
      JoinSplit(s[1..], sep);
      if s[0] == sep {
        assert Split(s, sep)[1..] == rest;
        assert s == [sep] + s[1..];
      } else {
        var fields := Split(s, sep);
        assert fields[1..] == rest[1..];
        if |rest| == 1 {
          assert s == [s[0]] + s[1..];
        } else {
          assert Join(rest, sep) == rest[0] + [sep] + Join(rest[1..], sep);
          assert s == [s[0]] + rest[0] + [sep] + Join(rest[1..], sep);
        }
        forall i | 0 <= i < |fields| ensures sep !in fields[i] {
          if i > 0 { assert fields[i] == rest[i]; }
        }
      }
    }
  }

  /** A separator-free prefix glues onto the first piece of what follows it. */
  lemma {:induction false} SplitFreePrefix(a: string, b: string, sep: char)
    requires sep !in a
    ensures Split(a + b, sep) == [a + Split(b, sep)[0]] + Split(b, sep)[1..]
    decreases |a|
  {
    if a != [] {
      assert (a + b)[1..] == a[1..] + b;
      SplitFreePrefix(a[1..], b, sep);
      var rest := Split(a[1..] + b, sep);
      assert (a + b)[0] == a[0] && a[0] != sep;
      assert Split(a + b, sep) == [[a[0]] + rest[0]] + rest[1..];
      assert rest[1..] == Split(b, sep)[1..];
      assert [a[0]] + rest[0] == a + Split(b, sep)[0];
    } else {
      assert a + b == b;
      assert a + Split(b, sep)[0] == Split(b, sep)[0];
      assert Split(b, sep) == [Split(b, sep)[0]] + Split(b, sep)[1..];
    }
  }

  /** Joining separator-free pieces and splitting again gives the pieces back. */
  lemma {:induction false} SplitJoin(fields: seq<string>, sep: char)
    requires |fields| >= 1 && NoSeparator(fields, sep)
    ensures Split(Join(fields, sep), sep) == fields
    decreases |fields|
  {
    SplitFreePrefix(fields[0], if |fields| == 1 then [] else [sep] + Join(fields[1..], sep), sep);
    if |fields| == 1 {
      assert Split([], sep) == [""];
      assert fields[0] + [] == fields[0];
      assert fields == [fields[0]];
    } else {
      assert NoSeparator(fields[1..], sep) by {
        forall i | 0 <= i < |fields| - 1 ensures sep !in fields[1..][i] {
          assert fields[1..][i] == fields[i + 1];
        }
      }
      SplitJoin(fields[1..], sep);
      var tail := Join(fields[1..], sep);
      assert fields[0] + [sep] + tail == fields[0] + ([sep] + tail);
      assert ([sep] + tail)[1..] == tail;
      assert Split([sep] + tail, sep) == [""] + fields[1..];
      assert fields[0] + "" == fields[0];
      assert fields == [fields[0]] + fields[1..];
    }
  }
}
