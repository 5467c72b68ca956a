/** The schema namer installed by `addOpenApiNamingFix`: it turns the printed
    form of a Kotlin type into a name the OpenAPI description accepts.

    First every maximal run of `[A-Za-z0-9_.]` is replaced by the part after
    its last dot, which strips package qualifiers
    (`smn.ktorexample.Car` becomes `Car`). Then every `<`, `>` and `", "` is
    replaced by `_` (`List<Car>` becomes `List_Car_`). The type's printed form
    is an input: printing a `KType` is not modelled. */
module SchemaNamer {

  /** The characters of the regex class `[A-Za-z0-9_.]`. */
  predicate IsNameChar(ch: char)
  {
    ('A' <= ch <= 'Z') || ('a' <= ch <= 'z') || ('0' <= ch <= '9') || ch == '_' || ch == '.'
  }

  /** Whether `", "` occurs in `s`. */
  predicate HasCommaSpace(s: string)
  {
    exists i :: 0 <= i < |s| - 1 && s[i] == ',' && s[i + 1] == ' '
  }

  // ---------------------------------------------------------------------------
  // Splitting a word at a separator, as Kotlin's `split` does
  // ---------------------------------------------------------------------------

  /** The pieces of `w` between occurrences of `sep`: n separators give n + 1
      pieces, empty ones included (Kotlin keeps trailing empty pieces). */
  function Split(w: string, sep: char): (parts: seq<string>)
    ensures |parts| > 0
  {
    if |w| == 0 then [""]
    else
      var rest := Split(w[..|w| - 1], sep);
      if w[|w| - 1] == sep then rest + [""]
      else rest[..|rest| - 1] + [rest[|rest| - 1] + [w[|w| - 1]]]
  }

  /** Glues pieces back together with the separator between them. */
  function Join(parts: seq<string>, sep: char): string
    requires |parts| > 0
  {
    if |parts| == 1 then parts[0]
    else Join(parts[..|parts| - 1], sep) + [sep] + parts[|parts| - 1]
  }

  /** Appending a character to the last piece appends it to the join. */
  lemma JoinExtendLast(parts: seq<string>, c: char, sep: char)
    requires |parts| > 0
    ensures Join(parts[..|parts| - 1] + [parts[|parts| - 1] + [c]], sep) == Join(parts, sep) + [c]
  {
    var n := |parts|;
    var q := parts[..n - 1] + [parts[n - 1] + [c]];
    if n > 1 {
      assert q[..n - 1] == parts[..n - 1];
      assert q[n - 1] == parts[n - 1] + [c];
    }
  }

  /** Splitting loses nothing: joining the pieces with the separator gives
      the word back. */
  lemma {:induction false} SplitJoin(w: string, sep: char)
    ensures Join(Split(w, sep), sep) == w
  {
    if |w| > 0 {
      var init, c := w[..|w| - 1], w[|w| - 1];
      var rest := Split(init, sep);
      SplitJoin(init, sep);
      assert w == init + [c];
      if c == sep {
        var parts := rest + [""];
        assert Split(w, sep) == parts;
        assert parts[..|parts| - 1] == rest;
        calc {
          Join(parts, sep);
          Join(rest, sep) + [sep] + "";
          init + [sep] + "";
          { assert init + [sep] + "" == init + [sep]; }
          w;
        }
      } else {
        assert Split(w, sep) == rest[..|rest| - 1] + [rest[|rest| - 1] + [c]];
        JoinExtendLast(rest, c, sep);
      }
    }
  }

  /** No piece of a split contains the separator. */
  lemma {:induction false} SplitPiecesFreeOfSeparator(w: string, sep: char)
    ensures forall k :: 0 <= k < |Split(w, sep)| ==> sep !in Split(w, sep)[k]
  {
    if |w| > 0 {
      var init := w[..|w| - 1];
      var last := w[|w| - 1];
      var rest := Split(init, sep);
      SplitPiecesFreeOfSeparator(init, sep);
      var parts := Split(w, sep);
      if last != sep {
        var k := |rest| - 1;
        forall j | 0 <= j < |parts| ensures sep !in parts[j] {
          if j < k {
            assert parts[j] == rest[j];
          }
        }
      }
    }
  }

  /** `r` is a suffix of `w` free of `sep`, and is either all of `w` or
      preceded by `sep`: what the last piece of a split must be. */
  predicate IsLastPiece(r: string, w: string, sep: char)
  {
    && sep !in r
    && |r| <= |w| && r == w[|w| - |r|..]
    && (|r| < |w| ==> w[|w| - |r| - 1] == sep)
  }

  /** Appending a character other than the separator to a word extends its
      last piece by that character. */
  lemma LastPieceSnoc(r0: string, init: string, c: char, sep: char)
    requires IsLastPiece(r0, init, sep) && c != sep
    ensures IsLastPiece(r0 + [c], init + [c], sep)
  {
    var w := init + [c];
    var k := |init| - |r0|;
    assert w[k..] == init[k..] + [c];
    if k > 0 {
      assert w[k - 1] == init[k - 1];
    }
  }

  /** The last piece of a split, computed from the end of the word. */
  lemma {:induction false} LastPiece(w: string, sep: char)
    ensures IsLastPiece(Split(w, sep)[|Split(w, sep)| - 1], w, sep)
  {
    if |w| > 0 {
      var init, c := w[..|w| - 1], w[|w| - 1];
      assert w == init + [c];
      LastPiece(init, sep);
      var rest := Split(init, sep);
      var r0 := rest[|rest| - 1];
      if c != sep {
        var parts := rest[..|rest| - 1] + [r0 + [c]];
        assert Split(w, sep) == parts;
        assert parts[|parts| - 1] == r0 + [c];
        LastPieceSnoc(r0, init, c, sep);
      } else {
        var parts := rest + [""];
        assert Split(w, sep) == parts;
        assert parts[|parts| - 1] == "";
        assert w[|w|..] == "";
      }
    }
  }

  /** A last piece of a word without the separator is the whole word. */
  lemma LastPieceOfUnseparated(r: string, w: string, sep: char)
    requires IsLastPiece(r, w, sep) && sep !in w
    ensures r == w
  {
    assert forall i :: 0 <= i < |w| ==> w[i] != sep;
  }

  /** `split(".").last()`: what follows the last dot of a word, or the whole
      word when it has no dot. The result is the suffix of the word that has
      no dot and is either all of it or preceded by a dot. */
  function LastSegment(w: string): (r: string)
    ensures '.' !in r
    ensures |r| <= |w| && r == w[|w| - |r|..]
    ensures |r| < |w| ==> w[|w| - |r| - 1] == '.'
    ensures '.' !in w ==> r == w
  {
    var parts := Split(w, '.');
    LastPiece(w, '.');
    var r := parts[|parts| - 1];
    if '.' !in w then
      LastPieceOfUnseparated(r, w, '.');
      r
    else r
  }

  // ---------------------------------------------------------------------------
  // Step one: shorten every qualified name to its last segment
  // ---------------------------------------------------------------------------

  /** Length of the greedy match of `[A-Za-z0-9_.]+` at the start of `s`. */
  function RunLength(s: string): (n: nat)
    ensures n <= |s|
    ensures forall i :: 0 <= i < n ==> IsNameChar(s[i])
    ensures n < |s| ==> !IsNameChar(s[n])
  {
    if |s| == 0 || !IsNameChar(s[0]) then 0 else 1 + RunLength(s[1..])
  }

  /** The characters of `s` outside the name class, in order. */
  function NonNameChars(s: string): string
  {
    if |s| == 0 then []
    else if IsNameChar(s[0]) then NonNameChars(s[1..])
    else [s[0]] + NonNameChars(s[1..])
  }

  lemma {:induction false} NonNameCharsConcat(a: string, b: string)
    ensures NonNameChars(a + b) == NonNameChars(a) + NonNameChars(b)
  {
    if |a| > 0 {
      assert (a + b)[0] == a[0];
      assert (a + b)[1..] == a[1..] + b;
      NonNameCharsConcat(a[1..], b);
    } else {
      assert a + b == b;
    }
  }

  lemma {:induction false} NonNameCharsOfName(w: string)
    requires forall i :: 0 <= i < |w| ==> IsNameChar(w[i])
    ensures NonNameChars(w) == []
  {
    if |w| > 0 {
      NonNameCharsOfName(w[1..]);
    }
  }

  /** The first `replace`: every maximal run of name characters becomes its
      last dot-separated segment; everything else is copied. No dot survives,
      a text without dots is unchanged, and the characters outside the name
      class come through in their order. */
  function ShortenNames(s: string): (r: string)
    ensures '.' !in r
    ensures '.' !in s ==> r == s
    ensures NonNameChars(r) == NonNameChars(s)
    decreases |s|
  {
    if |s| == 0 then []
    else if !IsNameChar(s[0]) then
      var rest := ShortenNames(s[1..]);
      NonNameCharsConcat([s[0]], rest);
      NonNameCharsConcat([s[0]], s[1..]);
      assert [s[0]] + s[1..] == s;
      [s[0]] + rest
    else
      var n := RunLength(s);
      var run := s[..n];
      var seg := LastSegment(run);
      var rest := ShortenNames(s[n..]);
      assert s == run + s[n..];
      NonNameCharsConcat(seg, rest);
      NonNameCharsConcat(run, s[n..]);
      NonNameCharsOfName(run);
      assert forall i :: 0 <= i < |seg| ==> seg[i] == run[|run| - |seg| + i];
      NonNameCharsOfName(seg);
      SlicesOfDotFree(s, n);
      seg + rest
  }

  lemma SlicesOfDotFree(s: string, n: nat)
    requires n <= |s|
    ensures '.' !in s ==> '.' !in s[..n] && '.' !in s[n..]
  {
    if '.' !in s {
      forall i | 0 <= i < n ensures s[..n][i] != '.' {
        assert s[..n][i] == s[i];
      }
      forall i | 0 <= i < |s| - n ensures s[n..][i] != '.' {
        assert s[n..][i] == s[n + i];
      }
    }
  }

  // ---------------------------------------------------------------------------
  // Step two: replace angle brackets and ", " by underscores
  // ---------------------------------------------------------------------------

  /** The second `replace`: scanning left to right, each `<`, `>` and `", "`
      becomes `_`; other characters are copied. */
  function ReplaceBrackets(s: string): (r: string)
    ensures '<' !in r && '>' !in r
    ensures !HasCommaSpace(r)
    ensures forall ch :: ch in r ==> ch == '_' || ch in s
    ensures |s| > 0 ==> |r| > 0 && (r[0] == '_' || r[0] == s[0])
    ensures '<' !in s && '>' !in s && !HasCommaSpace(s) ==> r == s
    decreases |s|
  {
    if |s| == 0 then []
    else if s[0] == '<' || s[0] == '>' then
      var rest := ReplaceBrackets(s[1..]);
      CommaSpaceCons('_', rest);
      "_" + rest
    else if |s| >= 2 && s[0] == ',' && s[1] == ' ' then
      var rest := ReplaceBrackets(s[2..]);
      CommaSpaceCons('_', rest);
      "_" + rest
    else
      var rest := ReplaceBrackets(s[1..]);
      CommaSpaceCons(s[0], rest);
      CommaSpaceCons(s[0], s[1..]);
      assert [s[0]] + s[1..] == s;
      [s[0]] + rest
  }

  /** `", "` occurs in `[c] + t` exactly when it starts at the front or
      occurs in `t`. */
  lemma CommaSpaceCons(c: char, t: string)
    ensures HasCommaSpace([c] + t) <==> (c == ',' && |t| > 0 && t[0] == ' ') || HasCommaSpace(t)
  {
    var s := [c] + t;
    if c == ',' && |t| > 0 && t[0] == ' ' {
      assert s[0] == ',' && s[1] == ' ';
    }
    if HasCommaSpace(t) {
      var i :| 0 <= i < |t| - 1 && t[i] == ',' && t[i + 1] == ' ';
      assert s[i + 1] == ',' && s[i + 2] == ' ';
    }
    if HasCommaSpace(s) {
      var i :| 0 <= i < |s| - 1 && s[i] == ',' && s[i + 1] == ' ';
      if i > 0 {
        assert t[i - 1] == ',' && t[i] == ' ';
      } else {
        assert s[1] == t[0];
      }
    }
  }

  // ---------------------------------------------------------------------------
  // The namer
  // ---------------------------------------------------------------------------

  /** `SchemaNamer.get`: the schema name for a type's printed form. It holds
      no dot, no angle bracket and no `", "`, and a name that has none of
      these to begin with is returned unchanged. */
  function SchemaName(typeName: string): (name: string)
    ensures '.' !in name && '<' !in name && '>' !in name
    ensures !HasCommaSpace(name)
    ensures '.' !in typeName && '<' !in typeName && '>' !in typeName && !HasCommaSpace(typeName) ==>
              name == typeName
  {
    ReplaceBrackets(ShortenNames(typeName))
  }

  /** The characters that neither step touches: outside the name class and
      other than `<`, `>`, `,` and space. */
  predicate IsPunctuation(ch: char)
  {
    !IsNameChar(ch) && ch != '<' && ch != '>' && ch != ',' && ch != ' '
  }

  /** The characters of `s` that are punctuation, in order. */
  function Punctuation(s: string): string
  {
    if |s| == 0 then []
    else if IsPunctuation(s[0]) then [s[0]] + Punctuation(s[1..])
    else Punctuation(s[1..])
  }

  lemma {:induction false} PunctuationConcat(a: string, b: string)
    ensures Punctuation(a + b) == Punctuation(a) + Punctuation(b)
  {
    if |a| > 0 {
      assert (a + b)[0] == a[0];
      assert (a + b)[1..] == a[1..] + b;
      PunctuationConcat(a[1..], b);
    } else {
      assert a + b == b;
    }
  }

  lemma {:induction false} PunctuationOfNonNameChars(s: string)
    ensures Punctuation(NonNameChars(s)) == Punctuation(s)
  {
    if |s| > 0 {
      PunctuationOfNonNameChars(s[1..]);
      if !IsNameChar(s[0]) {
        PunctuationConcat([s[0]], NonNameChars(s[1..]));
      }
    }
  }

  lemma {:induction false} ReplaceBracketsKeepsPunctuation(s: string)
    ensures Punctuation(ReplaceBrackets(s)) == Punctuation(s)
    decreases |s|
  {
    if |s| > 0 {
      if s[0] == '<' || s[0] == '>' {
        ReplaceBracketsKeepsPunctuation(s[1..]);
        PunctuationConcat("_", ReplaceBrackets(s[1..]));
      } else if |s| >= 2 && s[0] == ',' && s[1] == ' ' {
        ReplaceBracketsKeepsPunctuation(s[2..]);
        PunctuationConcat("_", ReplaceBrackets(s[2..]));
        assert s[1..][1..] == s[2..];
      } else {
        ReplaceBracketsKeepsPunctuation(s[1..]);
        PunctuationConcat([s[0]], ReplaceBrackets(s[1..]));
      }
    }
  }

  /** Characters such as `?` that are outside the name class and are not
      `<`, `>`, `,` or space come through the namer unchanged and in order. */
  lemma SchemaNameKeepsPunctuation(typeName: string)
    ensures Punctuation(SchemaName(typeName)) == Punctuation(typeName)
  {
    var shortened := ShortenNames(typeName);
    ReplaceBracketsKeepsPunctuation(shortened);
    PunctuationOfNonNameChars(shortened);
    PunctuationOfNonNameChars(typeName);
  }

  /** The last segment of a word is what follows its last dot. */
  lemma LastSegmentAfterDot(w: string, k: nat)
    requires k < |w| && w[k] == '.'
    requires forall i :: k < i < |w| ==> w[i] != '.'
    ensures LastSegment(w) == w[k + 1..]
  {
    var r := LastSegment(w);
    if |r| > |w| - k - 1 {
      assert false;
    } else if |r| < |w| - k - 1 {
      assert false;
    }
  }

  /** A whole run at the front of a text is shortened on its own. */
  lemma {:induction false} ShortenRunThen(run: string, rest: string)
    requires |run| > 0 && forall i :: 0 <= i < |run| ==> IsNameChar(run[i])
    requires |rest| == 0 || !IsNameChar(rest[0])
    ensures ShortenNames(run + rest) == LastSegment(run) + ShortenNames(rest)
  {
    var s := run + rest;
    assert forall i :: 0 <= i < |run| ==> s[i] == run[i];
    assert RunLength(s) == |run| by {
      if |rest| > 0 {
        assert s[|run|] == rest[0];
      }
    }
    assert s[..|run|] == run;
    assert s[|run|..] == rest;
  }

  /** A character outside the name class at the front of a text is copied. */
  lemma ShortenOtherThen(c: char, rest: string)
    requires !IsNameChar(c)
    ensures ShortenNames([c] + rest) == [c] + ShortenNames(rest)
  {
    assert ([c] + rest)[1..] == rest;
  }

  /** A character other than `<`, `>` and `,` at the front is copied by the
      second step. */
  lemma ReplaceOtherThen(c: char, rest: string)
    requires c != '<' && c != '>' && c != ','
    ensures ReplaceBrackets([c] + rest) == [c] + ReplaceBrackets(rest)
  {
    assert ([c] + rest)[1..] == rest;
  }

  /** Concatenation is associative. */
  lemma ConcatAssoc(a: string, b: string, c: string)
    ensures a + (b + c) == (a + b) + c
  {
  }

  /** A text free of `<`, `>` and `,` at the front passes the second step
      unchanged. */
  lemma {:induction false} ReplacePlainThen(plain: string, rest: string)
    requires forall i :: 0 <= i < |plain| ==> plain[i] != '<' && plain[i] != '>' && plain[i] != ','
    ensures ReplaceBrackets(plain + rest) == plain + ReplaceBrackets(rest)
  {
    if |plain| > 0 {
      var head, tail := [plain[0]], plain[1..];
      assert forall i :: 0 <= i < |tail| ==> tail[i] == plain[i + 1];
      ConcatAssoc(head, tail, rest);
      assert head + tail == plain;
      ConcatAssoc(head, tail, ReplaceBrackets(rest));
      calc {
        ReplaceBrackets(plain + rest);
        ReplaceBrackets(head + (tail + rest));
        { ReplaceOtherThen(plain[0], tail + rest); }
        head + ReplaceBrackets(tail + rest);
        { ReplacePlainThen(tail, rest); }
        head + (tail + ReplaceBrackets(rest));
      }
    } else {
      assert plain + rest == rest;
    }
  }

  /** A bracket or `", "` at the front becomes one underscore. */
  lemma ReplaceSpecialThen(special: string, rest: string)
    requires special == "<" || special == ">" || special == ", "
    ensures ReplaceBrackets(special + rest) == "_" + ReplaceBrackets(rest)
  {
    var s := special + rest;
    if special == ", " {
      assert s[0] == ',' && s[1] == ' ' && s[2..] == rest;
    } else {
      assert s[1..] == rest;
    }
  }

  /** A word of name characters, such as a package or a simple class name. */
  predicate IsWord(w: string)
  {
    forall i :: 0 <= i < |w| ==> IsNameChar(w[i])
  }

  /** A qualified name is shortened to its simple name. */
  lemma LastSegmentOfQualified(qual: string, name: string)
    requires '.' !in name
    ensures LastSegment(qual + "." + name) == name
  {
    var w := qual + "." + name;
    assert w[|qual|] == '.';
    forall i | |qual| < i < |w| ensures w[i] != '.' {
      assert w[i] == name[i - |qual| - 1];
    }
    LastSegmentAfterDot(w, |qual|);
    assert w[|qual| + 1..] == name;
  }

  lemma QualifiedIsWord(qual: string, name: string)
    requires IsWord(qual) && IsWord(name)
    ensures IsWord(qual + "." + name)
  {
    var w := qual + "." + name;
    forall i | 0 <= i < |w| ensures IsNameChar(w[i]) {
      if i < |qual| {
        assert w[i] == qual[i];
      } else if i > |qual| {
        assert w[i] == name[i - |qual| - 1];
      }
    }
  }

  /** A qualified name at the front of a text is shortened to its simple name. */
  lemma ShortenQualifiedThen(qual: string, name: string, rest: string)
    requires IsWord(qual) && IsWord(name) && '.' !in name
    requires |rest| == 0 || !IsNameChar(rest[0])
    ensures ShortenNames(qual + "." + name + rest) == name + ShortenNames(rest)
  {
    QualifiedIsWord(qual, name);
    ShortenRunThen(qual + "." + name, rest);
    LastSegmentOfQualified(qual, name);
  }

  /** The first step on the bracketed argument `<q.B>` gives `<B>`. */
  lemma ShortenArgument(argQual: string, arg: string)
    requires IsWord(argQual) && IsWord(arg) && '.' !in arg
    ensures ShortenNames("<" + (argQual + "." + arg + ">")) == "<" + arg + ">"
  {
    var close := ">";
    ShortenOtherThen('<', argQual + "." + arg + close);
    ShortenQualifiedThen(argQual, arg, close);
    ShortenOtherThen('>', "");
    assert [close[0]] + "" == close;
    assert ShortenNames(close) == close;
  }

  /** Regrouping eight concatenated texts into a head of three and a tail
      of five. */
  lemma ConcatRegroup(a: string, b: string, c: string, d: string, e: string, f: string, g: string, h: string)
    ensures a + b + c + d + e + f + g + h == (a + b + c) + (d + (e + f + g + h))
  {
  }

  /** The first step on `p.A<q.B>` gives `A<B>`. */
  lemma ShortenGeneric(qual: string, name: string, argQual: string, arg: string)
    requires IsWord(qual) && IsWord(name) && IsWord(argQual) && IsWord(arg)
    requires '.' !in name && '.' !in arg
    ensures ShortenNames(qual + "." + name + "<" + argQual + "." + arg + ">") == name + "<" + arg + ">"
  {
    var open := "<" + (argQual + "." + arg + ">");
    calc {
      ShortenNames(qual + "." + name + "<" + argQual + "." + arg + ">");
      { ConcatRegroup(qual, ".", name, "<", argQual, ".", arg, ">"); }
      ShortenNames((qual + "." + name) + open);
      { ShortenQualifiedThen(qual, name, open); }
      name + ShortenNames(open);
      { ShortenArgument(argQual, arg); }
      name + ("<" + arg + ">");
      { ConcatAssoc(name, "<" + arg, ">"); ConcatAssoc(name, "<", arg); }
      name + "<" + arg + ">";
    }
  }

  /** The second step on `A<B>` gives `A_B_`. */
  lemma ReplaceGeneric(name: string, arg: string)
    requires IsWord(name) && IsWord(arg)
    ensures ReplaceBrackets(name + "<" + arg + ">") == name + "_" + arg + "_"
  {
    calc {
      ReplaceBrackets(name + "<" + arg + ">");
      { ConcatAssoc(name, "<", arg); ConcatAssoc(name, "<" + arg, ">"); ConcatAssoc("<", arg, ">"); }
      ReplaceBrackets(name + ("<" + (arg + ">")));
      { ReplacePlainThen(name, "<" + (arg + ">")); }
      name + ReplaceBrackets("<" + (arg + ">"));
      { ReplaceSpecialThen("<", arg + ">"); }
      name + ("_" + ReplaceBrackets(arg + ">"));
      { ReplacePlainThen(arg, ">"); }
      name + ("_" + (arg + ReplaceBrackets(">")));
      { ReplaceSpecialThen(">", ""); assert ">" + "" == ">"; }
      name + ("_" + (arg + ("_" + ReplaceBrackets(""))));
      { assert "_" + ReplaceBrackets("") == "_"; }
      name + ("_" + (arg + "_"));
      { ConcatAssoc(name, "_", arg + "_"); ConcatAssoc(name + "_", arg, "_"); }
      name + "_" + arg + "_";
    }
  }

  /** A generic type with one qualified argument, `p.A<q.B>`, is named
      `A_B_`. */
  lemma SchemaNameOfGeneric(qual: string, name: string, argQual: string, arg: string)
    requires IsWord(qual) && IsWord(name) && IsWord(argQual) && IsWord(arg)
    requires '.' !in name && '.' !in arg
    ensures SchemaName(qual + "." + name + "<" + argQual + "." + arg + ">") == name + "_" + arg + "_"
  {
    ShortenGeneric(qual, name, argQual, arg);
    ReplaceGeneric(name, arg);
  }

  /** A qualified class name is named by its simple name. */
  lemma SchemaNameOfQualified(qual: string, name: string)
    requires IsWord(qual) && IsWord(name) && '.' !in name
    ensures SchemaName(qual + "." + name) == name
  {
    ShortenQualifiedThen(qual, name, "");
    assert qual + "." + name + "" == qual + "." + name;
    ReplacePlainThen(name, "");
    assert name + "" == name;
  }

  /** A qualified nullable type `p.A?` is named `A?`. */
  lemma SchemaNameOfQualifiedNullable(qual: string, name: string)
    requires IsWord(qual) && IsWord(name) && '.' !in name
    ensures SchemaName(qual + "." + name + "?") == name + "?"
  {
    ShortenQualifiedThen(qual, name, "?");
    ShortenOtherThen('?', "");
    assert ['?'] + "" == "?";
    ReplacePlainThen(name + "?", "");
    assert name + "?" + "" == name + "?";
  }

  /** The car type, written as package and simple name. */
  lemma SchemaNameOfCarParts()
    ensures SchemaName("smn.ktorexample" + "." + "Car") == "Car"
  {
    SchemaNameOfQualified("smn.ktorexample", "Car");
  }

  /** The namer strips the package from the car type. */
  lemma SchemaNameOfCar()
    ensures SchemaName("smn.ktorexample.Car") == "Car"
  {
    SchemaNameOfCarParts();
    CarTypeText();
  }

  lemma CarTypeText()
    ensures "smn.ktorexample" + "." + "Car" == "smn.ktorexample.Car"
  {
  }

  /** The nullable string type, written as package, simple name and `?`. */
  lemma SchemaNameOfNullableParts()
    ensures SchemaName("kotlin" + "." + "String" + "?") == "String" + "?"
  {
    SchemaNameOfQualifiedNullable("kotlin", "String");
  }

  /** A nullable type keeps its question mark. */
  lemma SchemaNameOfNullable()
    ensures SchemaName("kotlin.String?") == "String?"
  {
    SchemaNameOfNullableParts();
    NullableStringTypeText();
  }

  lemma NullableStringTypeText()
    ensures "kotlin" + "." + "String" + "?" == "kotlin.String?"
    ensures "String" + "?" == "String?"
  {
  }
}
