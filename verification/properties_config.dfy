/** `PropertiesConfig`: a line-preserving editor of a local `.properties` file. On load
    it remembers, for every key line, which line holds it; on save it rewrites exactly
    those lines whose key is being saved, keeps every other line as it was, and appends
    an optional comment block and the entries it could not place. The file is a
    sequence of lines; reading and writing the file itself is not modelled. */
module PropertiesConfig {
  import opened Wrappers
  import opened JavaStrings
  import opened Enumerations
  import opened PropertiesEscape
  import opened PropertiesComments

  type Props = map<string, string>

  // ---------------------------------------------------------------------------
  // Load: the key -> line index
  // ---------------------------------------------------------------------------

  /** A character `String.trim` removes: any code up to and including the space. */
  predicate IsBlank(ch: char) {
    ch as int <= 0x20
  }

  /** The position of the first character `trim()` keeps, `|line|` when it keeps none. */
  function FirstNonBlank(line: string): (i: nat)
    ensures i <= |line|
    ensures forall j :: 0 <= j < i ==> IsBlank(line[j])
    ensures i < |line| ==> !IsBlank(line[i])
    decreases |line|
  {
    if |line| == 0 || !IsBlank(line[0]) then 0 else 1 + FirstNonBlank(line[1..])
  }

  /** `line.trim().startsWith("#")`: only `#` marks a comment here, not `!`. */
  predicate IsCommentLine(line: string) {
    FirstNonBlank(line) < |line| && line[FirstNonBlank(line)] == '#'
  }

  /** The key a line is indexed under: the raw text before its first `=`, when that `=`
      is not the first character and the line is not a comment. The key is neither
      trimmed nor unescaped. */
  function KeyOf(line: string): Option<string> {
    if IsCommentLine(line) then None
    else
      var eq := IndexOf(line, '=');
      if eq > 0 then Some(line[..eq]) else None
  }

  /** What `KeyOf` promises: a key is a non-empty, `=`-free prefix that the line
      continues with `=`, and a line has no key exactly when it is a comment, has no
      `=`, or starts with `=`. */
  lemma KeyOfMeaning(line: string)
    ensures KeyOf(line).Some? ==> && !IsCommentLine(line)
                                  && |KeyOf(line).value| > 0
                                  && '=' !in KeyOf(line).value
                                  && StartsWith(line, KeyOf(line).value + "=")
    ensures KeyOf(line).None? <==> IsCommentLine(line) || '=' !in line || line[0] == '='
  {
    if KeyOf(line).Some? {
      var eq := IndexOf(line, '=');
      assert line[..eq + 1] == line[..eq] + "=";
    }
  }

  /** The key of every line. */
  function LineKeys(lines: seq<string>): (keys: seq<Option<string>>)
    ensures |keys| == |lines|
    ensures forall i :: 0 <= i < |lines| ==> keys[i] == KeyOf(lines[i])
  {
    seq(|lines|, i requires 0 <= i < |lines| => KeyOf(lines[i]))
  }

  /** `index` maps every key among the first `n` entries of `keys` to the last position
      holding it, and maps nothing else. */
  predicate IsLastIndex(index: map<string, nat>, keys: seq<Option<string>>, n: nat)
    requires n <= |keys|
  {
    && (forall k :: k in index ==>
          && index[k] < n
          && keys[index[k]] == Some(k)
          && (forall j :: index[k] < j < n ==> keys[j] != Some(k)))
    && (forall i :: 0 <= i < n && keys[i].Some? ==> keys[i].value in index)
  }

  /** `index` is the constructor's `key2line` for `lines`: every key line is indexed
      under its key, at the last line holding that key, and nothing else is. */
  predicate IndexesLines(index: map<string, nat>, lines: seq<string>) {
    IsLastIndex(index, LineKeys(lines), |lines|)
  }

  /** The editor's state: the file's lines (updated by every save), the index built on
      load (never updated) and the unicode-escaping switch. */
  datatype Config = Config(lines: seq<string>, index: map<string, nat>, escUnicode: bool)

  /** No two keys share a line. */
  predicate Injective(index: map<string, nat>) {
    forall k1, k2 :: k1 in index && k2 in index && index[k1] == index[k2] ==> k1 == k2
  }

  /** What every save relies on: the index points inside the file, one key per line. */
  predicate Valid(cfg: Config) {
    && (forall k :: k in cfg.index ==> cfg.index[k] < |cfg.lines|)
    && Injective(cfg.index)
  }

  /** `new PropertiesConfig(file)`: keep every line and index the key lines. */
  method Load(lines: seq<string>) returns (cfg: Config)
    ensures cfg.lines == lines && cfg.escUnicode
    ensures IndexesLines(cfg.index, lines)
    ensures Valid(cfg)
  {
    ghost var keys := LineKeys(lines);
    var index: map<string, nat> := map[];
    var i := 0;
    while i < |lines|
      invariant i <= |lines|
      invariant IsLastIndex(index, keys, i)
    {
      var key := KeyOf(lines[i]);
      assert key == keys[i];
      IndexStep(index, keys, i);
      if key.Some? {
        index := index[key.value := i];
      }
      i := i + 1;
    }
    cfg := Config(lines, index, true);
    IndexIsValid(cfg);
  }

  /** One more entry read: a key takes over its entry. */
  lemma IndexStep(index: map<string, nat>, keys: seq<Option<string>>, i: nat)
    requires i < |keys| && IsLastIndex(index, keys, i)
    ensures keys[i].None? ==> IsLastIndex(index, keys, i + 1)
    ensures keys[i].Some? ==> IsLastIndex(index[keys[i].value := i], keys, i + 1)
  {
    if keys[i].Some? {
      var next := index[keys[i].value := i];
      forall k | k in next
        ensures && next[k] < i + 1
                && keys[next[k]] == Some(k)
                && (forall j :: next[k] < j < i + 1 ==> keys[j] != Some(k))
      {
        if k != keys[i].value {
          assert next[k] == index[k];
        }
      }
    }
  }

  /** An index built from the lines is valid: a line holds one key. */
  lemma IndexIsValid(cfg: Config)
    requires IndexesLines(cfg.index, cfg.lines)
    ensures Valid(cfg)
  {
    var keys := LineKeys(cfg.lines);
    forall k1, k2 | k1 in cfg.index && k2 in cfg.index && cfg.index[k1] == cfg.index[k2]
      ensures k1 == k2
    {
      assert keys[cfg.index[k1]] == Some(k1);
    }
  }

  /** Comment lines are never key lines, whatever else they contain. */
  lemma CommentLinesAreNotIndexed(lines: seq<string>, index: map<string, nat>, i: nat)
    requires IndexesLines(index, lines)
    requires i < |lines| && IsCommentLine(lines[i])
    ensures forall k :: k in index ==> index[k] != i
  {
    assert LineKeys(lines)[i] == None;
  }

  /** The first `=` splits. */
  lemma KeyEndsAtFirstEquals()
    ensures KeyOf("a=b=c") == Some("a")
  {
    assert FirstNonBlank("a=b=c") == 0;
    assert IndexOf("a=b=c", '=') == 1 by {
      assert "a=b=c"[0] != '=' && "a=b=c"[1] == '=';
    }
    assert "a=b=c"[..1] == "a";
  }

  /** The key keeps the blanks before the `=`. */
  lemma KeyIsNotTrimmed()
    ensures KeyOf("k = v") == Some("k ")
  {
    assert FirstNonBlank("k = v") == 0;
    assert IndexOf("k = v", '=') == 2 by {
      assert "k = v"[1..][1..] == "= v";
      assert IndexOf("= v", '=') == 0;
      assert IndexOf("k = v"[1..], '=') == 1;
    }
    assert "k = v"[..2] == "k ";
  }

  /** A leading `=` means no key, a `#` after blanks makes a comment, and `!` does not. */
  lemma OnlyHashMarksComments()
    ensures KeyOf("=v") == None
    ensures KeyOf("  #a=b") == None
    ensures KeyOf("!a=b") == Some("!a")
  {
    assert FirstNonBlank("=v") == 0;
    assert IndexOf("=v", '=') == 0;
    assert FirstNonBlank("  #a=b") == 2 by {
      assert "  #a=b"[1..][1..] == "#a=b";
      assert FirstNonBlank("#a=b") == 0;
    }
    assert FirstNonBlank("!a=b") == 0;
    assert IndexOf("!a=b", '=') == 2 by {
      assert "!a=b"[1..][1..] == "=b";
      assert IndexOf("=b", '=') == 0;
      assert IndexOf("!a=b"[1..], '=') == 1;
    }
    assert "!a=b"[..2] == "!a";
  }

  // ---------------------------------------------------------------------------
  // Save: merge into the indexed lines, then append
  // ---------------------------------------------------------------------------

  /** The `key2line.forEach` walk over `keys`: each key found in `props` has its line
      replaced by `kv(key, value)`. */
  function Replace(lines: seq<string>, index: map<string, nat>, props: Props,
                   keys: seq<string>, escUnicode: bool): (r: seq<string>)
    requires forall i :: 0 <= i < |keys| ==> keys[i] in index && index[keys[i]] < |lines|
    ensures |r| == |lines|
    decreases |keys|
  {
    if |keys| == 0 then lines
    else
      var k := keys[0];
      var next := if k in props then lines[index[k] := Kv(k, props[k], escUnicode)] else lines;
      Replace(next, index, props, keys[1..], escUnicode)
  }

  /** With one key per line, the walk rewrites the line of every saved key and leaves
      every other line alone, whatever order it takes the keys in. */
  lemma {:induction false} ReplaceRewritesExactlySavedKeys(
    lines: seq<string>, index: map<string, nat>, props: Props, keys: seq<string>, escUnicode: bool)
    requires forall i :: 0 <= i < |keys| ==> keys[i] in index && index[keys[i]] < |lines|
    requires Injective(index)
    ensures forall i :: 0 <= i < |keys| && keys[i] in props ==>
              Replace(lines, index, props, keys, escUnicode)[index[keys[i]]]
              == Kv(keys[i], props[keys[i]], escUnicode)
    ensures forall n :: 0 <= n < |lines| && !Touches(index, props, keys, n) ==>
              Replace(lines, index, props, keys, escUnicode)[n] == lines[n]
    decreases |keys|
  {
    if |keys| > 0 {
      var k := keys[0];
      var next := if k in props then lines[index[k] := Kv(k, props[k], escUnicode)] else lines;
      var tail := keys[1..];
      var r := Replace(next, index, props, tail, escUnicode);
      assert r == Replace(lines, index, props, keys, escUnicode);
      ReplaceRewritesExactlySavedKeys(next, index, props, tail, escUnicode);
      forall i | 0 <= i < |keys| && keys[i] in props
        ensures r[index[keys[i]]] == Kv(keys[i], props[keys[i]], escUnicode)
      {
        if i > 0 {
          assert keys[i] == tail[i - 1];
        } else if Touches(index, props, tail, index[k]) {
          var j :| 0 <= j < |tail| && tail[j] in props && index[tail[j]] == index[k];
        }
      }
      forall n | 0 <= n < |lines| && !Touches(index, props, keys, n)
        ensures r[n] == lines[n]
      {
        forall j | 0 <= j < |tail| && tail[j] in props ensures index[tail[j]] != n {
          assert tail[j] == keys[j + 1];
        }
      }
    }
  }

  /** Some key of `keys` that is being saved sits on line `n`. */
  predicate Touches(index: map<string, nat>, props: Props, keys: seq<string>, n: nat)
    requires forall i :: 0 <= i < |keys| ==> keys[i] in index
  {
    exists i :: 0 <= i < |keys| && keys[i] in props && index[keys[i]] == n
  }

  /** What `properties.remove(k)` leaves of the argument after every indexed key: the
      entries that have no line in the file. */
  function Remaining(props: Props, index: map<string, nat>): (rest: Props)
    ensures rest.Keys == props.Keys - index.Keys
    ensures forall k :: k in rest ==> rest[k] == props[k]
  {
    map k | k in props && k !in index :: props[k]
  }

  /** The text `println` writes for `xs`: each line followed by the separator. */
  function Text(xs: seq<string>, nl: string): string
    decreases |xs|
  {
    if |xs| == 0 then "" else xs[0] + nl + Text(xs[1..], nl)
  }

  /** The `kv` lines for the entries of `rest`, in the order `order` walks them. */
  function Appended(order: seq<string>, rest: Props, escUnicode: bool): (out: seq<string>)
    requires forall i :: 0 <= i < |order| ==> order[i] in rest
    ensures |out| == |order|
    ensures forall i :: 0 <= i < |order| ==> out[i] == Kv(order[i], rest[order[i]], escUnicode)
    decreases |order|
  {
    if |order| == 0 then []
    else [Kv(order[0], rest[order[0]], escUnicode)] + Appended(order[1..], rest, escUnicode)
  }

  /** The comment block, when there is a comment. */
  function CommentText(comments: Option<string>, nl: string): string {
    match comments
    case None => ""
    case Some(c) => WriteComments(c, nl)
  }

  /** The outcome of a save: the editor's new state, what is left of the argument, and
      the text written to the file. */
  datatype Saved = Saved(config: Config, remaining: Props, text: string)

  /** `saveToFile(properties, comments)`. `indexOrder` is the `key2line` iteration
      order and `restOrder` the order `properties` yields its remaining entries in. */
  function SaveToFile(cfg: Config, props: Props, comments: Option<string>,
                      indexOrder: seq<string>, restOrder: seq<string>, nl: string): (r: Saved)
    requires Valid(cfg)
    requires IsEnumeration(indexOrder, cfg.index.Keys)
    requires IsEnumeration(restOrder, Remaining(props, cfg.index).Keys)
    ensures r.config.index == cfg.index && r.config.escUnicode == cfg.escUnicode
    ensures |r.config.lines| == |cfg.lines|
    ensures forall k :: k in cfg.index && k in props ==>
              r.config.lines[cfg.index[k]] == Kv(k, props[k], cfg.escUnicode)
    ensures forall n :: 0 <= n < |cfg.lines| && !Touches(cfg.index, props, indexOrder, n) ==>
              r.config.lines[n] == cfg.lines[n]
    ensures r.remaining.Keys == props.Keys - cfg.index.Keys
    ensures forall k :: k in r.remaining ==> r.remaining[k] == props[k]
    ensures r.text == Text(r.config.lines, nl) + CommentText(comments, nl)
                      + Text(Appended(restOrder, r.remaining, cfg.escUnicode), nl)
  {
    var lines := Replace(cfg.lines, cfg.index, props, indexOrder, cfg.escUnicode);
    assert forall k :: k in cfg.index && k in props ==>
             lines[cfg.index[k]] == Kv(k, props[k], cfg.escUnicode) by {
      ReplaceRewritesExactlySavedKeys(cfg.lines, cfg.index, props, indexOrder, cfg.escUnicode);
      forall k | k in cfg.index && k in props
        ensures lines[cfg.index[k]] == Kv(k, props[k], cfg.escUnicode)
      {
        var i :| 0 <= i < |indexOrder| && indexOrder[i] == k;
      }
    }
    assert forall n :: 0 <= n < |cfg.lines| && !Touches(cfg.index, props, indexOrder, n) ==>
             lines[n] == cfg.lines[n] by {
      ReplaceRewritesExactlySavedKeys(cfg.lines, cfg.index, props, indexOrder, cfg.escUnicode);
    }
    var rest := Remaining(props, cfg.index);
    var text := Text(lines, nl) + CommentText(comments, nl)
                + Text(Appended(restOrder, rest, cfg.escUnicode), nl);
    Saved(Config(lines, cfg.index, cfg.escUnicode), rest, text)
  }

  /** Saving nothing, without a comment, writes the file back exactly as it was loaded
      and leaves the editor unchanged. */
  lemma SaveNothingKeepsFile(cfg: Config, indexOrder: seq<string>, nl: string)
    requires Valid(cfg)
    requires IsEnumeration(indexOrder, cfg.index.Keys)
    ensures Remaining(map[], cfg.index) == map[]
    ensures SaveToFile(cfg, map[], None, indexOrder, [], nl).config == cfg
    ensures SaveToFile(cfg, map[], None, indexOrder, [], nl).text == Text(cfg.lines, nl)
  {
    var r := SaveToFile(cfg, map[], None, indexOrder, [], nl);
    assert r.config.lines == cfg.lines;
    assert Text(Appended([], r.remaining, cfg.escUnicode), nl) == "";
  }

  // ---------------------------------------------------------------------------
  // A written entry is found again by the next load
  // ---------------------------------------------------------------------------

  /** A line whose `#`s are all escaped is not a comment: the first non-blank character
      cannot be a `#`, since a `#` follows a backslash. */
  lemma EscapedLineIsNotComment(line: string)
    requires HashesEscaped(line)
    ensures !IsCommentLine(line)
  {
    var p := FirstNonBlank(line);
    if 0 < p < |line| {
      assert IsBlank(line[p - 1]);
    }
  }

  /** The `#`s of `k + "=" + v` are escaped when those of `k` and `v` are. */
  lemma EntryEscapesHashes(k: string, v: string)
    requires HashesEscaped(k) && HashesEscaped(v)
    ensures HashesEscaped(k + "=" + v)
  {
    var line := k + "=" + v;
    forall i | 0 <= i < |line| && line[i] == '#' ensures i > 0 && line[i - 1] == '\\' {
      if i < |k| {
        assert line[i] == k[i] && line[i - 1] == k[i - 1];
      } else if i > |k| {
        assert line[i] == v[i - |k| - 1];
        assert line[i - 1] == v[i - |k| - 2];
      }
    }
  }

  /** The first `=` of `k + "=" + v` is the one after `k` when `k` has none. */
  lemma FirstEqualsAfter(k: string, v: string)
    requires Avoids(k, '=')
    ensures IndexOf(k + "=" + v, '=') == |k|
  {
    var line := k + "=" + v;
    assert line[|k|] == '=';
  }

  /** Escaping a non-empty text gives a non-empty text. */
  lemma ConvertedIsNonEmpty(s: string, escapeSpace: bool, escapeUnicode: bool)
    requires |s| > 0
    ensures |SaveConvert(s, escapeSpace, escapeUnicode)| > 0
  {
  }

  /** Writer and reader agree: the line `kv(key, value)` writes is indexed, on the next
      load, under the escaped key, for every non-empty key without `=`. */
  lemma WrittenEntryIsIndexedUnderEscapedKey(key: string, val: string, escapeUnicode: bool)
    requires |key| > 0 && Avoids(key, '=')
    ensures KeyOf(Kv(key, val, escapeUnicode)) == Some(SaveConvert(key, true, escapeUnicode))
  {
    var k := SaveConvert(key, true, escapeUnicode);
    var v := SaveConvert(val, false, escapeUnicode);
    ConvertFromEscapesHashes(key, 0, true, escapeUnicode);
    ConvertFromEscapesHashes(val, 0, false, escapeUnicode);
    EntryEscapesHashes(k, v);
    EscapedLineIsNotComment(k + "=" + v);
    ConvertFromAvoids(key, 0, true, escapeUnicode, '=');
    FirstEqualsAfter(k, v);
    ConvertedIsNonEmpty(key, true, escapeUnicode);
    assert (k + "=" + v)[..|k|] == k;
  }

  /** A key that needs no escaping: printable, no blank, none of `=:#!` or backslash. */
  predicate PlainKey(key: string) {
    forall i :: 0 <= i < |key| ==> Printable(key[i]) && key[i] !in " =:#!\\"
  }

  /** `saveConvert` leaves a plain text alone. */
  lemma {:induction false} PlainTextIsKept(s: string, x: nat, escapeSpace: bool, escapeUnicode: bool)
    requires x <= |s| && PlainKey(s)
    ensures ConvertFrom(s, x, escapeSpace, escapeUnicode) == s[x..]
    decreases |s| - x
  {
    if x < |s| {
      PlainTextIsKept(s, x + 1, escapeSpace, escapeUnicode);
      assert EscapeChar(s[x], x == 0, escapeSpace, escapeUnicode) == [s[x]];
      assert s[x..] == [s[x]] + s[x + 1..];
    }
  }

  /** A plain key survives a save and a reload: its line is indexed under the key
      itself, so a later save rewrites the same line. */
  lemma PlainKeyIsIndexedAgain(key: string, val: string, escapeUnicode: bool)
    requires |key| > 0 && PlainKey(key)
    ensures KeyOf(Kv(key, val, escapeUnicode)) == Some(key)
  {
    assert Avoids(key, '=') by {
      forall i | 0 <= i < |key| ensures key[i] != '=' {
        assert key[i] !in " =:#!\\";
      }
    }
    PlainTextIsKept(key, 0, true, escapeUnicode);
    assert key[0..] == key;
    WrittenEntryIsIndexedUnderEscapedKey(key, val, escapeUnicode);
  }
}
