/**
 * Java's `String.split` for a one-character separator that is not a regular
 * expression metacharacter, with the default limit 0: the text is cut at every
 * separator, a leading empty field is kept, trailing empty fields are dropped,
 * and a text without any separator comes back as the single field it is (so
 * "" gives [""], while ";" gives []).
 */
module JavaSplit {

  /** Index of the first `c` in `s`, or `|s|` when there is none. */
  function IndexOf(s: string, c: char): (j: nat)
    ensures j <= |s|
    ensures forall i :: 0 <= i < j ==> s[i] != c
    ensures j < |s| ==> s[j] == c
  {
    if s == [] || s[0] == c then 0 else 1 + IndexOf(s[1..], c)
  }

  /** Every piece between separators, empty ones included (`split` with a negative limit). */
  function Fields(s: string, sep: char): (fs: seq<string>)
    ensures |fs| >= 1
    ensures forall k :: 0 <= k < |fs| ==> sep !in fs[k]
    decreases |s|
  {
    var j := IndexOf(s, sep);
    if j == |s| then [s] else [s[..j]] + Fields(s[j + 1..], sep)
  }

  /** The fields with the trailing empty ones removed. */
  function DropTrailingEmpty(fs: seq<string>): (r: seq<string>)
    ensures |r| <= |fs| && r == fs[..|r|]
    ensures r != [] ==> r[|r| - 1] != ""
    ensures forall k :: |r| <= k < |fs| ==> fs[k] == ""
  {
    if fs != [] && fs[|fs| - 1] == "" then DropTrailingEmpty(fs[..|fs| - 1]) else fs
  }

  function Split(s: string, sep: char): (parts: seq<string>)
    ensures forall k :: 0 <= k < |parts| ==> sep !in parts[k]
  {
    if sep !in s then [s] else DropTrailingEmpty(Fields(s, sep))
  }

  lemma FieldsOfPlain(a: string, sep: char)
    requires sep !in a
    ensures Fields(a, sep) == [a]
  {
    assert IndexOf(a, sep) == |a|;
  }

  lemma FieldsCons(a: string, sep: char, rest: string)
    requires sep !in a
    ensures Fields(a + [sep] + rest, sep) == [a] + Fields(rest, sep)
  {
    var s := a + [sep] + rest;
    assert s[|a|] == sep;
    var j := IndexOf(s, sep);
    assert j == |a|;
    assert s[..j] == a;
    assert s[j + 1..] == rest;
  }

  /** Dropping trailing empties never removes a field with a non-empty field after it. */
  lemma DropKeepsUpToNonEmpty(fs: seq<string>, k: nat)
    requires k < |fs| && fs[k] != ""
    ensures |DropTrailingEmpty(fs)| > k
    ensures forall i :: 0 <= i <= k ==> DropTrailingEmpty(fs)[i] == fs[i]
  {
    var r := DropTrailingEmpty(fs);
    forall i | 0 <= i <= k ensures r[i] == fs[i] {
      assert r[i] == fs[..|r|][i];
    }
  }

  /**
   * Three separator-free fields, the last one non-empty, then a separator and
   * anything at all: the split starts with exactly those three fields.
   */
  lemma {:induction false} SplitThreeAndMore(a: string, b: string, c: string, sep: char, more: string)
    requires sep !in a && sep !in b && sep !in c && c != ""
    ensures var parts := Split(a + [sep] + b + [sep] + c + [sep] + more, sep);
            |parts| >= 3 && parts[0] == a && parts[1] == b && parts[2] == c
  {
    var line := a + [sep] + b + [sep] + c + [sep] + more;
    var fs := Fields(line, sep);
    assert fs[0] == a && fs[1] == b && fs[2] == c by {
      FieldsThree(a, b, c, sep, more);
    }
    assert sep in line by {
      assert line[|a|] == sep;
    }
    DropKeepsUpToNonEmpty(fs, 2);
  }

  lemma FieldsThree(a: string, b: string, c: string, sep: char, more: string)
    requires sep !in a && sep !in b && sep !in c
    ensures var fs := Fields(a + [sep] + b + [sep] + c + [sep] + more, sep);
            |fs| >= 3 && fs[0] == a && fs[1] == b && fs[2] == c
  {
    var r1 := c + [sep] + more;
    var r2 := b + [sep] + r1;
    assert a + [sep] + b + [sep] + c + [sep] + more == a + [sep] + r2;
    FieldsCons(a, sep, r2);
    FieldsCons(b, sep, r1);
    FieldsCons(c, sep, more);
  }

  /** With nothing after the third field, those three fields are the whole split. */
  lemma {:induction false} SplitExactlyThree(a: string, b: string, c: string, sep: char)
    requires sep !in a && sep !in b && sep !in c && c != ""
    ensures Split(a + [sep] + b + [sep] + c, sep) == [a, b, c]
  {
    var line := a + [sep] + b + [sep] + c;
    assert Fields(line, sep) == [a, b, c] by {
      assert line == a + [sep] + (b + [sep] + c);
      FieldsCons(a, sep, b + [sep] + c);
      FieldsCons(b, sep, c);
      FieldsOfPlain(c, sep);
    }
    assert sep in line by {
      assert line[|a|] == sep;
    }
  }

  /** Two fields, the second non-empty: the split is just those two. */
  lemma {:induction false} SplitTwo(a: string, b: string, sep: char)
    requires sep !in a && sep !in b && b != ""
    ensures Split(a + [sep] + b, sep) == [a, b]
  {
    assert (a + [sep] + b)[|a|] == sep;
    FieldsCons(a, sep, b);
    FieldsOfPlain(b, sep);
  }

  /** Two fields and a trailing separator: the empty third field is dropped. */
  lemma {:induction false} SplitTwoTrailing(a: string, b: string, sep: char)
    requires sep !in a && sep !in b && b != ""
    ensures Split(a + [sep] + b + [sep], sep) == [a, b]
  {
    var line := a + [sep] + b + [sep];
    var fs := Fields(line, sep);
    assert fs == [a, b, ""] by {
      assert line == a + [sep] + (b + [sep] + []);
      FieldsCons(a, sep, b + [sep] + []);
      FieldsCons(b, sep, []);
      FieldsOfPlain([], sep);
    }
    assert sep in line by {
      assert line[|a|] == sep;
    }
    assert DropTrailingEmpty(fs) == [a, b] by {
      assert fs[..2] == [a, b];
    }
  }
}
