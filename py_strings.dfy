/** The handful of Python string operations the three parsers are built from:
    str.split() without an argument, str.split(sep) with a one-character
    separator, str.split(marker, 1), str.rstrip(), str.join, str.replace(c, '')
    and the ASCII part of str.lower(). Strings are sequences of code points. */
module PyStrings {
  import opened Wrappers

  /** The code points for which Python's str.isspace() holds; str.split() and
      str.rstrip() without arguments treat exactly these as whitespace. */
  predicate IsSpace(c: char) {
    ('\U{09}' <= c <= '\U{0D}') || ('\U{1C}' <= c <= '\U{20}') || c == '\U{85}' || c == '\U{A0}'
    || c == '\U{1680}' || ('\U{2000}' <= c <= '\U{200A}') || c == '\U{2028}' || c == '\U{2029}'
    || c == '\U{202F}' || c == '\U{205F}' || c == '\U{3000}'
  }

  /** A token of str.split(): non-empty and free of whitespace. */
  predicate IsWord(w: string) {
    w != [] && forall i :: 0 <= i < |w| ==> !IsSpace(w[i])
  }

  /** s without its leading whitespace. */
  function DropSpaces(s: string): (r: string)
    ensures |r| <= |s| && r == s[|s| - |r|..]
    ensures r == [] || !IsSpace(r[0])
    ensures forall i :: 0 <= i < |s| - |r| ==> IsSpace(s[i])
  {
    if s != [] && IsSpace(s[0]) then DropSpaces(s[1..]) else s
  }

  /** Length of the run of non-whitespace characters that starts s. */
  function WordLength(s: string): (n: nat)
    ensures n <= |s|
    ensures forall i :: 0 <= i < n ==> !IsSpace(s[i])
    ensures n < |s| ==> IsSpace(s[n])
  {
    if s == [] || IsSpace(s[0]) then 0 else 1 + WordLength(s[1..])
  }

  /** str.split() with no argument: runs of whitespace separate tokens, and
      leading and trailing whitespace yield no empty token. */
  function Split(s: string): (words: seq<string>)
    ensures forall k :: 0 <= k < |words| ==> IsWord(words[k])
    decreases |s|
  {
    var t := DropSpaces(s);
    if t == [] then []
    else
      var n := WordLength(t);
      LeadingWord(t);
      var rest := Split(t[n..]);
      WordsCons(t[..n], rest);
      [t[..n]] + rest
  }

  lemma {:induction false} LeadingWord(t: string)
    requires t != [] && !IsSpace(t[0])
    ensures 0 < WordLength(t) && IsWord(t[..WordLength(t)])
  {
  }

  lemma {:induction false} WordsCons(w: string, rest: seq<string>)
    requires IsWord(w) && forall k :: 0 <= k < |rest| ==> IsWord(rest[k])
    ensures forall k :: 0 <= k < |[w] + rest| ==> IsWord(([w] + rest)[k])
  {
  }

  /** str.split() yields no token exactly when s is blank. */
  lemma {:induction false} SplitBlank(s: string)
    ensures Split(s) == [] <==> forall i :: 0 <= i < |s| ==> IsSpace(s[i])
  {
    var t := DropSpaces(s);
    if t != [] {
      assert !IsSpace(s[|s| - |t|]);
    }
  }

  /** sep.join(parts). */
  function Join(sep: string, parts: seq<string>): string
  {
    if |parts| == 0 then ""
    else if |parts| == 1 then parts[0]
    else parts[0] + sep + Join(sep, parts[1..])
  }

  lemma {:induction false} SplitLeadingSpace(c: char, t: string)
    requires IsSpace(c)
    ensures Split([c] + t) == Split(t)
  {
    assert ([c] + t)[1..] == t;
  }

  lemma {:induction false} DropSpacesWord(w: string, t: string)
    requires IsWord(w)
    ensures DropSpaces(w + t) == w + t
  {
    assert (w + t)[0] == w[0];
  }

  lemma {:induction false} WordLengthWord(w: string, t: string)
    requires IsWord(w)
    requires t == [] || IsSpace(t[0])
    ensures WordLength(w + t) == |w|
  {
    var s := w + t;
    if |w| < |s| {
      assert s[|w|] == t[0];
    }
    assert forall i :: 0 <= i < |w| ==> s[i] == w[i];
  }

  lemma {:induction false} SplitWordFirst(w: string, t: string)
    requires IsWord(w)
    requires t == [] || IsSpace(t[0])
    ensures Split(w + t) == [w] + Split(t)
  {
    var s := w + t;
    DropSpacesWord(w, t);
    WordLengthWord(w, t);
    assert s[..|w|] == w && s[|w|..] == t;
  }

  lemma {:induction false} SplitJoinStep(w: string, rest: string)
    requires IsWord(w)
    ensures Split(w + " " + rest) == [w] + Split(rest)
  {
    var spaced := [' '] + rest;
    assert w + " " + rest == w + spaced;
    assert IsSpace(' ');
    SplitLeadingSpace(' ', rest);
    SplitWordFirst(w, spaced);
  }

  lemma {:induction false} SplitJoinCons(words: seq<string>)
    requires |words| > 1 && IsWord(words[0])
    ensures Split(Join(" ", words)) == [words[0]] + Split(Join(" ", words[1..]))
  {
    SplitJoinStep(words[0], Join(" ", words[1..]));
  }

  lemma {:induction false} SplitJoinOne(words: seq<string>)
    requires |words| == 1 && IsWord(words[0])
    ensures Split(Join(" ", words)) == words
  {
    var w := words[0];
    assert Join(" ", words) == w;
    SplitWordFirst(w, "");
    AppendEmpty(w);
    SplitEmpty();
    Singleton(words);
  }

  lemma {:induction false} Singleton<T>(s: seq<T>)
    requires |s| == 1
    ensures [s[0]] + [] == s
  {
  }

  lemma {:induction false} AppendEmpty(w: string)
    ensures w + "" == w
  {
  }

  lemma {:induction false} SplitEmpty()
    ensures Split("") == []
  {
  }

  lemma {:induction false} ConsTail<T>(s: seq<T>)
    requires s != []
    ensures [s[0]] + s[1..] == s
  {
  }

  /** Splitting single-space-joined tokens gives the tokens back: the
      re-join followed by a split in the Olympus parser loses nothing. */
  lemma {:induction false} SplitJoinWords(words: seq<string>)
    requires forall k :: 0 <= k < |words| ==> IsWord(words[k])
    ensures Split(Join(" ", words)) == words
    decreases |words|
  {
    if |words| == 1 {
      SplitJoinOne(words);
    } else if |words| > 1 {
      var rest := words[1..];
      SplitJoinWords(rest);
      SplitJoinCons(words);
      ConsTail(words);
    }
  }

  /** Every character is whitespace (the empty string included). */
  predicate IsBlank(u: string) {
    forall i :: 0 <= i < |u| ==> IsSpace(u[i])
  }

  /** Leading whitespace, however long, yields no token. */
  lemma {:induction false} SplitLeadingBlank(u: string, s: string)
    requires IsBlank(u)
    ensures Split(u + s) == Split(s)
    decreases |u|
  {
    if u == [] {
      assert u + s == s;
    } else {
      assert u + s == [u[0]] + (u[1..] + s);
      SplitLeadingSpace(u[0], u[1..] + s);
      SplitLeadingBlank(u[1..], s);
    }
  }

  lemma {:induction false} DropSpacesAppend(s: string, v: string)
    requires DropSpaces(s) != []
    ensures DropSpaces(s + v) == DropSpaces(s) + v
    decreases |s|
  {
    assert (s + v)[0] == s[0];
    if IsSpace(s[0]) {
      assert (s + v)[1..] == s[1..] + v;
      DropSpacesAppend(s[1..], v);
    }
  }

  lemma {:induction false} WordLengthAppend(t: string, v: string)
    requires v == [] || IsSpace(v[0])
    ensures WordLength(t + v) == WordLength(t)
    decreases |t|
  {
    if t == [] {
      assert t + v == v;
    } else {
      assert (t + v)[0] == t[0];
      if !IsSpace(t[0]) {
        assert (t + v)[1..] == t[1..] + v;
        WordLengthAppend(t[1..], v);
      }
    }
  }

  lemma {:induction false} SplitUnfold(x: string)
    requires DropSpaces(x) != []
    ensures var t := DropSpaces(x);
      Split(x) == [t[..WordLength(t)]] + Split(t[WordLength(t)..])
  {
  }

  /** A run of whitespace separates tokens: what is split on either side of
      it is split independently, and the run itself yields nothing. */
  lemma {:induction false} SplitAtBlank(a: string, u: string, b: string)
    requires IsBlank(u) && u != []
    ensures Split(a + u + b) == Split(a) + Split(b)
    decreases |a|
  {
    var t := DropSpaces(a);
    AppendAssoc(a, u, b);
    if t == [] {
      SplitAtBlankBlankHead(a, u, b);
    } else {
      var n := WordLength(t);
      LeadingWord(t);
      SplitAtBlank(t[n..], u, b);
      AppendAssoc(t[n..], u, b);
      SplitAtBlankWordHead(a, u, b);
    }
  }

  lemma {:induction false} AppendAssoc<T>(a: seq<T>, b: seq<T>, c: seq<T>)
    ensures a + b + c == a + (b + c)
  {
  }

  lemma {:induction false} SliceAppend<T>(t: seq<T>, v: seq<T>, n: nat)
    requires n <= |t|
    ensures (t + v)[..n] == t[..n] && (t + v)[n..] == t[n..] + v
  {
  }

  lemma {:induction false} SplitAtBlankBlankHead(a: string, u: string, b: string)
    requires IsBlank(u) && DropSpaces(a) == []
    ensures Split(a + u + b) == Split(a) + Split(b)
  {
    assert IsBlank(a + u) by {
      forall i | 0 <= i < |a + u| ensures IsSpace((a + u)[i]) {
        if i < |a| { assert (a + u)[i] == a[i]; } else { assert (a + u)[i] == u[i - |a|]; }
      }
    }
    SplitLeadingBlank(a + u, b);
    SplitBlank(a);
    assert [] + Split(b) == Split(b);
  }

  lemma {:induction false} SplitAtBlankWordHead(a: string, u: string, b: string)
    requires u != [] && IsSpace(u[0]) && DropSpaces(a) != []
    requires var t := DropSpaces(a);
      Split(t[WordLength(t)..] + (u + b)) == Split(t[WordLength(t)..]) + Split(b)
    ensures Split(a + (u + b)) == Split(a) + Split(b)
  {
    var t := DropSpaces(a);
    var n := WordLength(t);
    var rest := u + b;
    DropSpacesAppend(a, rest);
    HeadAppend(u, b);
    WordLengthAppend(t, rest);
    SplitUnfold(a + rest);
    SplitUnfold(a);
    SliceAppend(t, rest, n);
    AppendAssoc([t[..n]], Split(t[n..]), Split(b));
  }

  lemma {:induction false} HeadAppend<T>(u: seq<T>, b: seq<T>)
    requires u != []
    ensures (u + b)[0] == u[0]
  {
  }

  /** Trailing whitespace, however long, yields no token. */
  lemma {:induction false} SplitTrailingBlank(s: string, u: string)
    requires IsBlank(u)
    ensures Split(s + u) == Split(s)
  {
    if u == [] {
      assert s + u == s;
    } else {
      SplitAtBlank(s, u, []);
      assert s + u + [] == s + u;
      SplitEmpty();
      assert Split(s) + [] == Split(s);
    }
  }

  /** A run of whitespace inside a line splits as a single space does. */
  lemma {:induction false} SplitRunIsOneSpace(a: string, u: string, b: string)
    requires IsBlank(u) && u != []
    ensures Split(a + u + b) == Split(a + " " + b)
  {
    OneSpaceBlank();
    SplitAtBlank(a, u, b);
    SplitAtBlank(a, " ", b);
  }

  lemma {:induction false} OneSpaceBlank()
    ensures IsBlank(" ") && " " != []
  {
    assert " "[0] == ' ' && IsSpace(' ');
  }

  /** str.rstrip() with no argument: a prefix of s that does not end in
      whitespace. */
  function RStrip(s: string): (r: string)
    ensures |r| <= |s| && r == s[..|r|]
    ensures r == [] || !IsSpace(r[|r| - 1])
  {
    if s != [] && IsSpace(s[|s| - 1]) then RStrip(s[..|s| - 1]) else s
  }

  /** What str.rstrip() removes is whitespace only, so it keeps the longest
      prefix that does not end in whitespace. */
  lemma {:induction false} RStripTail(s: string)
    ensures forall i :: |RStrip(s)| <= i < |s| ==> IsSpace(s[i])
    decreases |s|
  {
    if s != [] && IsSpace(s[|s| - 1]) {
      RStripTail(s[..|s| - 1]);
    }
  }

  /** str.split(sep) for a one-character separator: every separator ends a
      field, so empty fields are kept and the result is never empty. Joining
      the fields with the separator gives s back. */
  function SplitOn(s: string, sep: char): (fields: seq<string>)
    ensures |fields| >= 1
    ensures forall k :: 0 <= k < |fields| ==> sep !in fields[k]
    ensures Join([sep], fields) == s
    decreases |s|
  {
    if s == [] then [""]
    else
      var rest := SplitOn(s[1..], sep);
      if s[0] == sep then
        assert Join([sep], [""] + rest) == [sep] + Join([sep], rest);
        [""] + rest
      else
        var fields := [[s[0]] + rest[0]] + rest[1..];
        assert fields[1..] == rest[1..];
        assert s == [s[0]] + s[1..];
        fields
  }

  lemma {:induction false} SplitOnWordFirst(w: string, t: string, sep: char)
    requires sep !in w
    ensures SplitOn(w + t, sep) == [w + SplitOn(t, sep)[0]] + SplitOn(t, sep)[1..]
    decreases |w|
  {
    if w != [] {
      assert (w + t)[1..] == w[1..] + t;
      SplitOnWordFirst(w[1..], t, sep);
      assert [w[0]] + (w[1..] + SplitOn(t, sep)[0]) == w + SplitOn(t, sep)[0];
    } else {
      var fs := SplitOn(t, sep);
      assert w + t == t;
      assert w + fs[0] == fs[0];
      assert fs == [fs[0]] + fs[1..];
    }
  }

  /** The converse round trip: fields free of the separator, joined and split
      again, come back unchanged, empty ones included. */
  lemma {:induction false} SplitOnJoin(fields: seq<string>, sep: char)
    requires |fields| >= 1
    requires forall k :: 0 <= k < |fields| ==> sep !in fields[k]
    ensures SplitOn(Join([sep], fields), sep) == fields
    decreases |fields|
  {
    if |fields| == 1 {
      SplitOnJoinOne(fields, sep);
    } else {
      SplitOnJoin(fields[1..], sep);
      SplitOnJoinCons(fields, sep);
      ConsTail(fields);
    }
  }

  lemma {:induction false} SplitOnJoinOne(fields: seq<string>, sep: char)
    requires |fields| == 1 && sep !in fields[0]
    ensures SplitOn(Join([sep], fields), sep) == fields
  {
    var w := fields[0];
    assert Join([sep], fields) == w;
    SplitOnWordFirst(w, "", sep);
    AppendEmpty(w);
    AppendEmpty(SplitOn("", sep)[0]);
    Singleton(fields);
  }

  lemma {:induction false} SplitOnJoinCons(fields: seq<string>, sep: char)
    requires |fields| > 1 && sep !in fields[0]
    ensures SplitOn(Join([sep], fields), sep) == [fields[0]] + SplitOn(Join([sep], fields[1..]), sep)
  {
    var rest := Join([sep], fields[1..]);
    JoinCons(fields, sep);
    SplitOnSepFirst(rest, sep);
    SplitOnWordFirst(fields[0], [sep] + rest, sep);
    AppendEmpty(fields[0]);
    HeadTail("", SplitOn(rest, sep));
  }

  lemma {:induction false} JoinCons(fields: seq<string>, sep: char)
    requires |fields| > 1
    ensures Join([sep], fields) == fields[0] + ([sep] + Join([sep], fields[1..]))
  {
  }

  lemma {:induction false} SplitOnSepFirst(rest: string, sep: char)
    ensures SplitOn([sep] + rest, sep) == [""] + SplitOn(rest, sep)
  {
    assert ([sep] + rest)[1..] == rest;
  }

  lemma {:induction false} HeadTail<T>(x: T, s: seq<T>)
    ensures ([x] + s)[0] == x && ([x] + s)[1..] == s
  {
  }

  /** The marker m occurs in s at index i. */
  predicate OccursAt(s: string, m: string, i: int) {
    0 <= i && i + |m| <= |s| && s[i..i + |m|] == m
  }

  lemma {:induction false} OccursAtShift(s: string, m: string, i: int)
    requires s != [] && i >= 0
    ensures OccursAt(s, m, i + 1) <==> OccursAt(s[1..], m, i)
  {
    if 0 <= i && i + 1 + |m| <= |s| {
      assert s[i + 1..i + 1 + |m|] == s[1..][i..i + |m|];
    }
  }

  /** s.split(m, 1) for a non-empty marker: the text before and after the
      first occurrence of m, or None where Python returns a single part (so
      that taking the second part fails). */
  function SplitFirst(s: string, m: string): (r: Option<(string, string)>)
    requires m != []
    ensures r.Some? ==> s == r.value.0 + m + r.value.1
    decreases |s|
  {
    if |s| < |m| then None
    else if s[..|m|] == m then
      SplitAtStart(s, m);
      Some(([], s[|m|..]))
    else
      match SplitFirst(s[1..], m)
      case None => None
      case Some((a, b)) =>
        SplitAfterHead(s, m, a, b);
        Some(([s[0]] + a, b))
  }

  lemma {:induction false} SplitAtStart(s: string, m: string)
    requires |m| <= |s| && s[..|m|] == m
    ensures s == [] + m + s[|m|..]
  {
    assert s == s[..|m|] + s[|m|..];
  }

  lemma {:induction false} SplitAfterHead(s: string, m: string, a: string, b: string)
    requires s != [] && s[1..] == a + m + b
    ensures s == [s[0]] + a + m + b
  {
    assert s == [s[0]] + s[1..];
  }

  /** SplitFirst splits at the FIRST occurrence, and fails exactly when the
      marker does not occur at all. */
  lemma {:induction false} SplitFirstIsFirst(s: string, m: string)
    requires m != []
    ensures SplitFirst(s, m).None? <==> forall i :: !OccursAt(s, m, i)
    ensures SplitFirst(s, m).Some? ==> OccursAt(s, m, |SplitFirst(s, m).value.0|)
    ensures SplitFirst(s, m).Some? ==> forall i :: 0 <= i < |SplitFirst(s, m).value.0| ==> !OccursAt(s, m, i)
    decreases |s|
  {
    if |s| < |m| {
    } else if s[..|m|] == m {
      assert OccursAt(s, m, 0);
    } else {
      assert !OccursAt(s, m, 0);
      SplitFirstIsFirst(s[1..], m);
      forall i | i >= 0 ensures OccursAt(s, m, i + 1) <==> OccursAt(s[1..], m, i) {
        OccursAtShift(s, m, i);
      }
      match SplitFirst(s[1..], m)
      case None =>
        forall i ensures !OccursAt(s, m, i) {
          if i > 0 { assert !OccursAt(s[1..], m, i - 1); }
        }
      case Some((a, b)) =>
        assert !OccursAt(s[1..], m, |a|) ==> false;
        forall i | 0 <= i < |a| + 1 ensures !OccursAt(s, m, i) {
          if i > 0 { assert !OccursAt(s[1..], m, i - 1); }
        }
    }
  }

  /** s.replace(c, ''): every c deleted, every other character kept as often
      as it occurs. */
  function Remove(s: string, c: char): (r: string)
    ensures c !in r
    ensures c !in s ==> r == s
    ensures forall x :: x != c ==> multiset(r)[x] == multiset(s)[x]
  {
    if s == [] then []
    else
      assert s == [s[0]] + s[1..];
      (if s[0] == c then [] else [s[0]]) + Remove(s[1..], c)
  }

  /** replace(c, '') on a single character: deleted if it is c, kept
      otherwise. */
  lemma {:induction false} RemoveOne(x: char, c: char)
    ensures Remove([x], c) == if x == c then [] else [x]
  {
    assert [x][1..] == [];
  }

  /** replace(c, '') works piece by piece and keeps the order of what it
      keeps: with RemoveOne this determines it on every string. */
  lemma {:induction false} RemoveAppend(a: string, b: string, c: char)
    ensures Remove(a + b, c) == Remove(a, c) + Remove(b, c)
    decreases |a|
  {
    if a == [] {
      assert a + b == b;
    } else {
      assert (a + b)[0] == a[0];
      assert (a + b)[1..] == a[1..] + b;
      RemoveAppend(a[1..], b, c);
      var head := if a[0] == c then [] else [a[0]];
      assert head + (Remove(a[1..], c) + Remove(b, c)) == (head + Remove(a[1..], c)) + Remove(b, c);
    }
  }

  /** replace(c, '') deletes c rather than turning it into anything:
      a c between two c-free parts leaves the parts joined. */
  lemma {:induction false} RemoveBetween(a: string, b: string, c: char)
    requires c !in a && c !in b
    ensures Remove(a + [c] + b, c) == a + b
  {
    RemoveAppend(a + [c], b, c);
    RemoveAppend(a, [c], c);
    RemoveOne(c, c);
    assert a + [] == a;
  }

  /** So "DOE,JOHN" becomes "DOEJOHN", not "DOE JOHN". */
  lemma {:induction false} RemoveCommaName(first: string, last: string)
    requires first == "DOE" && last == "JOHN"
    ensures Remove(first + [','] + last, ',') == first + last
    ensures Remove(first + [','] + last, ',') != first + " " + last
  {
    RemoveBetween(first, last, ',');
    assert |first + last| != |first + " " + last|;
  }

  /** str.lower() on one code point, for the ASCII letters; no other code
      point lower-cases into an ASCII letter other than 'i' or 'k'. */
  function Lower(c: char): (r: char)
    ensures 'A' <= c <= 'Z' ==> r as int == c as int + 32
    ensures !('A' <= c <= 'Z') ==> r == c
  {
    if 'A' <= c <= 'Z' then (c as int + 32) as char else c
  }

  /** str.lower() over a string, code point by code point. */
  function LowerAll(s: string): (r: string)
    ensures |r| == |s| && forall i :: 0 <= i < |s| ==> r[i] == Lower(s[i])
  {
    seq(|s|, i requires 0 <= i < |s| => Lower(s[i]))
  }
}
