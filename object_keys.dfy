/** How an upload handler turns the storage object key of an event into a
    file name and a file type, and the Olympus handler's `.log` gate. */
module ObjectKeys {
  import opened PyStrings

  /** s.split(sep)[-1]: the last field. */
  function LastField(s: string, sep: char): string
  {
    var fields := SplitOn(s, sep);
    fields[|fields| - 1]
  }

  /** key.split('/')[-1]. */
  function FileName(key: string): string
  {
    LastField(key, '/')
  }

  /** file_name.split('.')[-1]: the text after the last dot, or the whole
      name when it has no dot. */
  function FileType(fileName: string): string
  {
    LastField(fileName, '.')
  }

  /** The Olympus handler's gate: the file type, lower-cased, is "log". */
  predicate IsLogKey(key: string)
  {
    LowerAll(FileType(FileName(key))) == "log"
  }

  /** r is the tail of s after its last sep, or all of s when there is none. */
  predicate IsLastField(s: string, sep: char, r: string)
  {
    |r| <= |s| && s[|s| - |r|..] == r && sep !in r
    && (|r| == |s| || s[|s| - |r| - 1] == sep)
  }

  lemma {:induction false} JoinHasSeparator(fields: seq<string>, sep: char)
    requires |fields| >= 2
    ensures sep in Join([sep], fields)
  {
    assert Join([sep], fields) == fields[0] + [sep] + Join([sep], fields[1..]);
    assert Join([sep], fields)[|fields[0]|] == sep;
  }

  /** s.split(sep)[-1] is what follows the last separator. */
  lemma {:induction false} LastFieldIsTail(s: string, sep: char)
    ensures IsLastField(s, sep, LastField(s, sep))
    decreases |s|
  {
    if s != [] {
      var rest := SplitOn(s[1..], sep);
      LastFieldIsTail(s[1..], sep);
      LastFieldStep(s, sep);
      if s[0] == sep || |rest| >= 2 {
        if s[0] != sep {
          JoinHasSeparator(rest, sep);
          LastFieldShorter(s[1..], sep, LastField(s[1..], sep));
        }
        TailExtends(s, sep, LastField(s[1..], sep));
      } else {
        assert Join([sep], rest) == rest[0];
        WholeIsLast(s, sep);
      }
    }
  }

  /** How the last field of s relates to that of s without its first
      character. */
  lemma {:induction false} LastFieldStep(s: string, sep: char)
    requires s != []
    ensures var rest := SplitOn(s[1..], sep);
      (s[0] == sep || |rest| >= 2) ==> LastField(s, sep) == LastField(s[1..], sep)
    ensures var rest := SplitOn(s[1..], sep);
      (s[0] != sep && |rest| == 1) ==> LastField(s, sep) == s
  {
    var rest := SplitOn(s[1..], sep);
    if s[0] == sep {
      assert SplitOn(s, sep) == [""] + rest;
    } else if |rest| == 1 {
      assert Join([sep], rest) == rest[0];
      assert SplitOn(s, sep) == [[s[0]] + rest[0]];
      assert [s[0]] + s[1..] == s;
    } else {
      assert SplitOn(s, sep) == [[s[0]] + rest[0]] + rest[1..];
    }
  }

  lemma {:induction false} LastFieldShorter(t: string, sep: char, r: string)
    requires IsLastField(t, sep, r) && sep in t
    ensures |r| < |t|
  {
  }

  lemma {:induction false} TailExtends(s: string, sep: char, r: string)
    requires s != [] && IsLastField(s[1..], sep, r)
    requires |r| < |s| - 1 || s[0] == sep
    ensures IsLastField(s, sep, r)
  {
    assert s[1..][|s| - 1 - |r|..] == s[|s| - |r|..];
    if |r| < |s| - 1 {
      assert s[1..][|s| - 1 - |r| - 1] == s[|s| - |r| - 1];
    }
  }

  lemma {:induction false} WholeIsLast(s: string, sep: char)
    requires sep !in s
    ensures IsLastField(s, sep, s)
  {
    assert s[0..] == s;
  }

  /** Lower-case forms of "log" come only from the letters l, o and g. */
  lemma LowerLog(t: string)
    requires |t| == 3 && LowerAll(t) == "log"
    ensures t[0] in "lL" && t[1] in "oO" && t[2] in "gG"
  {
    assert LowerAll(t)[0] == Lower(t[0]) && LowerAll(t)[1] == Lower(t[1]) && LowerAll(t)[2] == Lower(t[2]);
  }

  /** r is what is left of the key after its last '/' or '.'. */
  predicate IsKeyTail(key: string, r: string)
  {
    |r| <= |key| && key[|key| - |r|..] == r && '/' !in r && '.' !in r
    && (|r| == |key| || key[|key| - |r| - 1] == '/' || key[|key| - |r| - 1] == '.')
  }

  lemma {:induction false} FileTypeIsKeyTail(key: string)
    ensures IsKeyTail(key, FileType(FileName(key)))
  {
    var name := FileName(key);
    var ft := FileType(name);
    LastFieldIsTail(key, '/');
    LastFieldIsTail(name, '.');
    SuffixOfSuffix(key, name, ft);
    NotInSuffix(name, ft, '/');
    if |ft| < |name| {
      SuffixChar(key, name, |name| - |ft| - 1);
    }
  }

  lemma {:induction false} SuffixChar(s: string, t: string, i: nat)
    requires |t| <= |s| && s[|s| - |t|..] == t && i < |t|
    ensures s[|s| - |t| + i] == t[i]
  {
  }

  lemma {:induction false} SuffixOfSuffix(s: string, t: string, u: string)
    requires |t| <= |s| && s[|s| - |t|..] == t
    requires |u| <= |t| && t[|t| - |u|..] == u
    ensures s[|s| - |u|..] == u
  {
    assert s[|s| - |t|..][|t| - |u|..] == s[|s| - |u|..];
  }

  lemma {:induction false} NotInSuffix(t: string, u: string, c: char)
    requires |u| <= |t| && t[|t| - |u|..] == u && c !in t
    ensures c !in u
  {
    forall i | 0 <= i < |u| ensures u[i] != c {
      assert u[i] == t[|t| - |u| + i];
    }
  }

  lemma {:induction false} KeyTailUnique(key: string, a: string, b: string)
    requires IsKeyTail(key, a) && IsKeyTail(key, b)
    ensures a == b
  {
  }

  lemma {:induction false} LogTailIsKeyTail(key: string)
    requires |key| >= 3 && LowerAll(key[|key| - 3..]) == "log"
    requires |key| == 3 || key[|key| - 4] == '/' || key[|key| - 4] == '.'
    ensures IsKeyTail(key, key[|key| - 3..])
  {
    var tail := key[|key| - 3..];
    LowerLog(tail);
    assert tail == [tail[0], tail[1], tail[2]];
  }

  /** An independent description of the gate: a key passes exactly when its
      last three characters spell "log" in any letter case and stand either
      at the start of the key or right after a '/' or a '.'. So "a/b.LOG"
      passes, and so does a key whose file name is "log" with no extension,
      while "a.log/b" and "a/b.logx" are rejected. */
  lemma {:induction false} LogKeyIff(key: string)
    ensures IsLogKey(key) <==>
      |key| >= 3 && LowerAll(key[|key| - 3..]) == "log"
      && (|key| == 3 || key[|key| - 4] == '/' || key[|key| - 4] == '.')
  {
    var ft := FileType(FileName(key));
    FileTypeIsKeyTail(key);
    if IsLogKey(key) {
      assert |ft| == 3;
      assert key[|key| - 3..] == ft;
    } else if |key| >= 3 && LowerAll(key[|key| - 3..]) == "log" && (|key| == 3 || key[|key| - 4] == '/' || key[|key| - 4] == '.') {
      LogTailIsKeyTail(key);
      KeyTailUnique(key, ft, key[|key| - 3..]);
    }
  }
}
