/**
  Splitting a line into fields the way repeated strtok_r calls do.
 */
module Tokenizer {

  /** The length of the field that begins the string. */
  function Run(s: string, sep: char): (n: nat)
    ensures n <= |s| && (n < |s| ==> s[n] == sep)
    ensures s != "" && s[0] != sep ==> n > 0
  {
    if s == "" || s[0] == sep then 0 else 1 + Run(s[1..], sep)
  }

  /** strtok_r until it returns NULL: the parts between separators that are not empty. */
  function Tokens(s: string, sep: char): seq<string>
    decreases |s|
  {
    if s == "" then []
    else if s[0] == sep then Tokens(s[1..], sep)
    else [s[..Run(s, sep)]] + Tokens(s[Run(s, sep)..], sep)
  }

  /** Fields with separators between them. */
  function Join(fields: seq<string>, sep: char): string {
    if fields == [] then ""
    else if |fields| == 1 then fields[0]
    else fields[0] + [sep] + Join(fields[1..], sep)
  }

  lemma {:induction false} RunOf(f: string, rest: string, sep: char)
    requires sep !in f && (rest == "" || rest[0] == sep)
    ensures Run(f + rest, sep) == |f|
  {
    var s := f + rest;
    if f != "" {
      RunOf(f[1..], rest, sep);
      assert s[1..] == f[1..] + rest && s[0] == f[0];
    }
  }

  /** A field in front, with what follows it. */
  lemma TokensOfFirst(f: string, rest: string, sep: char)
    requires f != "" && sep !in f && (rest == "" || rest[0] == sep)
    ensures Tokens(f + rest, sep) == [f] + Tokens(rest, sep)
  {
    var s := f + rest;
    RunOf(f, rest, sep);
    assert s[0] == f[0] && f[0] in f && s[..|f|] == f && s[|f|..] == rest;
  }

  /** A string without separators is one field, unless it is empty. */
  lemma TokensOfField(f: string, sep: char)
    requires sep !in f
    ensures Tokens(f, sep) == if f == "" then [] else [f]
  {
    if f != "" {
      TokensOfFirst(f, "", sep);
      assert f + "" == f;
    }
  }

  /** Separators in front are skipped. */
  lemma SkipSeparator(s: string, sep: char)
    requires s != "" && s[0] == sep
    ensures Tokens(s, sep) == Tokens(s[1..], sep)
  {
  }

  /** The field in front. */
  lemma TakeField(a: string, sep: char) returns (f: string, rest: string)
    requires a != "" && a[0] != sep
    ensures a == f + rest && f != "" && sep !in f && (rest == "" || rest[0] == sep)
    ensures Tokens(a, sep) == [f] + Tokens(rest, sep)
  {
    f, rest := a[..Run(a, sep)], a[Run(a, sep)..];
    forall k | 0 <= k < |f|
      ensures f[k] != sep
    {
      RunHasNone(a, sep, k);
    }
  }

  /** A separator splits the fields before it from those behind it, and adds none. */
  lemma {:induction false} TokensSplit(a: string, b: string, sep: char)
    ensures Tokens(a + [sep] + b, sep) == Tokens(a, sep) + Tokens(b, sep)
    decreases |a|
  {
    hide Tokens, Run;
    var s := a + [sep] + b;
    if a == "" {
      assert s == [sep] + b && s[1..] == b;
      SkipSeparator(s, sep);
      NoFields(sep);
    } else if a[0] == sep {
      assert s[1..] == a[1..] + [sep] + b;
      SkipSeparator(s, sep);
      SkipSeparator(a, sep);
      TokensSplit(a[1..], b, sep);
    } else {
      var f, rest := TakeField(a, sep);
      assert s == f + (rest + [sep] + b);
      TokensOfFirst(f, rest + [sep] + b, sep);
      TokensSplit(rest, b, sep);
    }
  }

  lemma NoFields(sep: char)
    ensures Tokens("", sep) == []
  {
  }

  /** Fields that are joined are found again. */
  lemma {:induction false} TokensOfJoin(fields: seq<string>, sep: char)
    requires forall f :: f in fields ==> f != "" && sep !in f
    ensures Tokens(Join(fields, sep), sep) == fields
  {
    if |fields| == 1 {
      assert fields[0] in fields;
      TokensOfFirst(fields[0], "", sep);
      assert fields[0] + "" == fields[0];
    } else if |fields| > 1 {
      var rest := Join(fields[1..], sep);
      forall g | g in fields[1..]
        ensures g in fields
      {
      }
      assert fields[0] in fields;
      TokensOfFirst(fields[0], [sep] + rest, sep);
      assert fields[0] + ([sep] + rest) == fields[0] + [sep] + rest;
      assert ([sep] + rest)[1..] == rest;
      TokensOfJoin(fields[1..], sep);
    }
  }

  lemma {:induction false} RunHasNone(s: string, sep: char, k: nat)
    requires k < Run(s, sep)
    ensures s[k] != sep
  {
    if k > 0 {
      RunHasNone(s[1..], sep, k - 1);
    }
  }

  /** No field is empty or contains a separator. */
  lemma {:induction false} TokensClean(s: string, sep: char)
    ensures forall f :: f in Tokens(s, sep) ==> f != "" && sep !in f
    decreases |s|
  {
    if s != "" {
      if s[0] == sep {
        TokensClean(s[1..], sep);
      } else {
        var n := Run(s, sep);
        TokensClean(s[n..], sep);
        forall k | 0 <= k < n
          ensures s[..n][k] != sep
        {
          RunHasNone(s, sep, k);
        }
      }
    }
  }
}
