/** The comment block `PropertiesConfig.writeComments` writes before the appended
    entries, the same block `java.util.Properties.store` writes. `nl` is the writer's
    line separator (`println`), one of the three Java line separators. */
module PropertiesComments {
  import opened PropertiesEscape

  /** The line separators a Java `PrintWriter` may use. */
  predicate IsLineSeparator(nl: string) {
    nl == "\n" || nl == "\r\n" || nl == "\r"
  }

  /** Where a line break starting at `i` ends: a CR directly followed by LF is one
      break. */
  function BreakEnd(c: string, i: nat): (j: nat)
    requires i < |c|
    ensures i <= j < |c|
    ensures j == i + 1 <==> c[i] == '\r' && i + 1 < |c| && c[i + 1] == '\n'
  {
    if c[i] == '\r' && i + 1 < |c| && c[i + 1] == '\n' then i + 1 else i
  }

  /** The comment character written after a break ending at `j`: none when the comment
      itself goes on with `#` or `!`. */
  function ContinuationMark(c: string, j: nat): (m: string)
    requires j < |c|
    ensures m == "" <==> j + 1 < |c| && c[j + 1] in "#!"
  {
    if j == |c| - 1 || (c[j + 1] != '#' && c[j + 1] != '!') then "#" else ""
  }

  /** A character the writer treats specially: above 0xFF, or a line break. */
  predicate Special(ch: char) {
    ch as int > 0xFF || ch == '\n' || ch == '\r'
  }

  /** Where the next piece of the comment starts after the character at `i`. */
  function Next(c: string, i: nat): (n: nat)
    requires i < |c|
    ensures i < n <= |c|
  {
    if c[i] == '\n' || c[i] == '\r' then BreakEnd(c, i) + 1 else i + 1
  }

  /** What the character at `i` becomes: characters above 0xFF become `\uXXXX`, a line
      break becomes `nl` plus a continuation mark, anything else is copied. */
  function Piece(c: string, i: nat, nl: string): string
    requires i < |c|
  {
    if c[i] as int > 0xFF then UnicodeEscape(c[i])
    else if c[i] == '\n' || c[i] == '\r' then nl + ContinuationMark(c, BreakEnd(c, i))
    else [c[i]]
  }

  /** What the comment text from position `i` on becomes: a reference definition
      written piece by piece. */
  function CommentFrom(c: string, i: nat, nl: string): string
    requires i <= |c|
    decreases |c| - i
  {
    if i == |c| then "" else Piece(c, i, nl) + CommentFrom(c, Next(c, i), nl)
  }

  /** `writeComments(bw, comments)`: `#`, the comment text, and a final line break. */
  function WriteComments(comments: string, nl: string): string {
    "#" + CommentFrom(comments, 0, nl) + nl
  }

  // ---------------------------------------------------------------------------
  // Every written line is a comment line
  // ---------------------------------------------------------------------------

  /** Position `i` of `t` ends a line for the reading side: an LF, or a CR not
      directly followed by an LF. */
  predicate LineBreakAt(t: string, i: nat)
    requires i < |t|
  {
    t[i] == '\n' || (t[i] == '\r' && (i + 1 == |t| || t[i + 1] != '\n'))
  }

  /** Every line break inside `t` is followed, inside `t`, by a comment character. */
  predicate BreaksMarked(t: string) {
    forall i :: 0 <= i < |t| && LineBreakAt(t, i) ==> i + 1 < |t| && t[i + 1] in "#!"
  }

  /** `t` is a block of comment lines ended by a line break: it starts with `#` or `!`,
      every line break before the last character is followed by `#` or `!`, and the last
      character ends a line. */
  predicate IsCommentBlock(t: string) {
    && |t| > 0
    && t[0] in "#!"
    && (forall i :: 0 <= i < |t| - 1 && LineBreakAt(t, i) ==> t[i + 1] in "#!")
    && LineBreakAt(t, |t| - 1)
  }

  /** Whatever the comment holds, `writeComments` writes only comment lines, so the
      reading side skips all of it. */
  lemma WriteCommentsIsCommentBlock(comments: string, nl: string)
    requires IsLineSeparator(nl)
    ensures IsCommentBlock(WriteComments(comments, nl))
  {
    var body := CommentFrom(comments, 0, nl);
    CommentFromMarked(comments, 0, nl);
    NoBreaksMarked("#");
    MarkedConcat("#", body);
    var block := "#" + body;
    var t := block + nl;
    assert t == WriteComments(comments, nl);
    forall i | 0 <= i < |t| - 1 && LineBreakAt(t, i) ensures t[i + 1] in "#!" {
      if i < |block| {
        assert LineBreakAt(block, i);
        assert t[i + 1] == block[i + 1];
      } else {
        assert false;
      }
    }
  }

  /** The text written from position `i` on keeps every break marked. */
  lemma {:induction false} CommentFromMarked(c: string, i: nat, nl: string)
    requires i <= |c| && IsLineSeparator(nl)
    ensures BreaksMarked(CommentFrom(c, i, nl))
    decreases |c| - i
  {
    if i < |c| {
      var n := Next(c, i);
      var rest := CommentFrom(c, n, nl);
      CommentFromMarked(c, n, nl);
      assert CommentFrom(c, i, nl) == Piece(c, i, nl) + rest;
      if c[i] == '\n' || c[i] == '\r' {
        BreakPieceMarked(c, i, nl);
      } else {
        assert Piece(c, i, nl) == (if c[i] as int > 0xFF then UnicodeEscape(c[i]) else [c[i]]);
        NoBreaksMarked(Piece(c, i, nl));
        MarkedConcat(Piece(c, i, nl), rest);
      }
    }
  }

  /** A line break, its continuation mark and the marked text after it. */
  lemma BreakPieceMarked(c: string, i: nat, nl: string)
    requires i < |c| && (c[i] == '\n' || c[i] == '\r') && IsLineSeparator(nl)
    requires BreaksMarked(CommentFrom(c, Next(c, i), nl))
    ensures BreaksMarked(Piece(c, i, nl) + CommentFrom(c, Next(c, i), nl))
  {
    var n := Next(c, i);
    var rest := CommentFrom(c, n, nl);
    var mark := ContinuationMark(c, BreakEnd(c, i));
    assert Piece(c, i, nl) == nl + mark;
    Associative(nl, mark, rest);
    if mark == "#" {
      MarkAddedMarked(nl, rest);
    } else {
      assert n < |c| && c[n] in "#!";
      CommentGoesOnMarked(c, n, nl);
      EmptyLeft(rest);
    }
  }

  lemma Associative(a: string, b: string, c: string)
    ensures a + b + c == a + (b + c)
  {
  }

  lemma EmptyLeft(a: string)
    ensures "" + a == a
  {
  }

  /** A break followed by an added `#`. */
  lemma MarkAddedMarked(nl: string, rest: string)
    requires IsLineSeparator(nl) && BreaksMarked(rest)
    ensures BreaksMarked(nl + ("#" + rest))
  {
    NoBreaksMarked("#");
    MarkedConcat("#", rest);
    NlMarked(nl, "#" + rest);
  }

  /** A break followed by comment text that itself goes on with `#` or `!`. */
  lemma CommentGoesOnMarked(c: string, n: nat, nl: string)
    requires n < |c| && c[n] in "#!" && IsLineSeparator(nl)
    requires BreaksMarked(CommentFrom(c, n, nl))
    ensures BreaksMarked(nl + CommentFrom(c, n, nl))
  {
    var rest := CommentFrom(c, n, nl);
    assert rest == Piece(c, n, nl) + CommentFrom(c, Next(c, n), nl);
    assert Piece(c, n, nl) == [c[n]];
    assert rest[0] == c[n];
    NlMarked(nl, rest);
  }

  /** Text without CR or LF has no break to mark. */
  lemma NoBreaksMarked(t: string)
    requires forall i :: 0 <= i < |t| ==> t[i] != '\n' && t[i] != '\r'
    ensures BreaksMarked(t)
  {
  }

  /** Marked pieces make a marked whole: a marked piece never ends with a break, so
      joining cannot create an unmarked one. */
  lemma MarkedConcat(a: string, b: string)
    requires BreaksMarked(a) && BreaksMarked(b)
    ensures BreaksMarked(a + b)
  {
    var t := a + b;
    forall i | 0 <= i < |t| && LineBreakAt(t, i) ensures i + 1 < |t| && t[i + 1] in "#!" {
      if i < |a| {
        if i == |a| - 1 {
          assert LineBreakAt(a, i);
          assert false;
        }
        assert LineBreakAt(a, i);
        assert t[i + 1] == a[i + 1];
      } else {
        assert LineBreakAt(b, i - |a|);
      }
    }
  }

  /** A line separator followed by marked text starting with a comment character. */
  lemma NlMarked(nl: string, b: string)
    requires IsLineSeparator(nl)
    requires |b| > 0 && b[0] in "#!" && BreaksMarked(b)
    ensures BreaksMarked(nl + b)
  {
    var t := nl + b;
    forall i | 0 <= i < |t| && LineBreakAt(t, i) ensures i + 1 < |t| && t[i + 1] in "#!" {
      if i >= |nl| {
        assert LineBreakAt(b, i - |nl|);
      }
    }
  }

  // ---------------------------------------------------------------------------
  // Characters above 0xFF and plain comments
  // ---------------------------------------------------------------------------

  /** Every character of `t` fits in ISO 8859-1. */
  predicate IsLatin1(t: string) {
    forall i :: 0 <= i < |t| ==> t[i] as int <= 0xFF
  }

  /** Characters above 0xFF never reach the output: they are written as `\uXXXX`. */
  lemma WriteCommentsIsLatin1(comments: string, nl: string)
    requires IsLineSeparator(nl)
    ensures IsLatin1(WriteComments(comments, nl))
  {
    CommentFromIsLatin1(comments, 0, nl);
    var body := CommentFrom(comments, 0, nl);
    Latin1Concat("#", body);
    Latin1Concat("#" + body, nl);
  }

  lemma {:induction false} CommentFromIsLatin1(c: string, i: nat, nl: string)
    requires i <= |c| && IsLineSeparator(nl)
    ensures IsLatin1(CommentFrom(c, i, nl))
    decreases |c| - i
  {
    if i < |c| {
      var rest := CommentFrom(c, Next(c, i), nl);
      CommentFromIsLatin1(c, Next(c, i), nl);
      PieceIsLatin1(c, i, nl);
      Latin1Concat(Piece(c, i, nl), rest);
    }
  }

  lemma PieceIsLatin1(c: string, i: nat, nl: string)
    requires i < |c| && IsLineSeparator(nl)
    ensures IsLatin1(Piece(c, i, nl))
  {
    if c[i] as int > 0xFF {
      var e := UnicodeEscape(c[i]);
      assert forall k :: 0 <= k < 6 ==> k < 2 || IsUpperHexDigit(e[k]);
    }
  }

  lemma Latin1Concat(a: string, b: string)
    requires IsLatin1(a) && IsLatin1(b)
    ensures IsLatin1(a + b)
  {
    forall i | 0 <= i < |a + b| ensures (a + b)[i] as int <= 0xFF {
      if i >= |a| {
        assert (a + b)[i] == b[i - |a|];
      }
    }
  }

  /** A comment without line breaks or characters above 0xFF is written as it is, on
      one line. */
  lemma PlainCommentIsCopied(comments: string, nl: string)
    requires forall i :: 0 <= i < |comments| ==> !Special(comments[i])
    ensures WriteComments(comments, nl) == "#" + comments + nl
  {
    PlainCommentFrom(comments, 0, nl);
  }

  lemma {:induction false} PlainCommentFrom(c: string, i: nat, nl: string)
    requires i <= |c|
    requires forall k :: 0 <= k < |c| ==> !Special(c[k])
    ensures CommentFrom(c, i, nl) == c[i..]
    decreases |c| - i
  {
    if i < |c| {
      PlainCommentFrom(c, i + 1, nl);
      assert c[i..] == [c[i]] + c[i + 1..];
    }
  }

  /** A CR LF pair is one break, and a break at the end still gets its mark. */
  lemma CrLfIsOneBreak()
    ensures WriteComments("a\r\nb", "\n") == "#a\n#b\n"
    ensures WriteComments("a\n", "\n") == "#a\n#\n"
  {
    assert CommentFrom("a\r\nb", 3, "\n") == "b";
    assert CommentFrom("a\r\nb", 1, "\n") == "\n#b";
    assert CommentFrom("a\n", 1, "\n") == "\n#";
  }

  /** A comment line that already starts with `!` gets no second mark. */
  lemma ExistingMarkIsKept()
    ensures WriteComments("a\n!b", "\n") == "#a\n!b\n"
  {
    assert CommentFrom("a\n!b", 2, "\n") == "!b";
    assert CommentFrom("a\n!b", 1, "\n") == "\n!b";
  }

  /** A character above 0xFF is escaped with upper-case digits. */
  lemma WideCharIsEscaped()
    ensures WriteComments([0x4E2D as char], "\n") == "#\\u4E2D\n"
  {
    var c: char := 0x4E2D as char;
    assert ToHex(c as int / 4096) == '4' && ToHex(c as int / 256) == 'E';
    assert ToHex(c as int / 16) == '2' && ToHex(c as int) == 'D';
    assert CommentFrom([c], 0, "\n") == UnicodeEscape(c) + CommentFrom([c], 1, "\n");
  }
}
