/** The nested-dictionary pretty printer used for webhook payloads
    (app/utils/json_format.py). */
module JsonFormat {
  import TextFormat

  /** A JSON-like value: a dict with its entries in insertion order, a list,
      or any other value, kept as its str() text. Keys are kept as their
      str() text too. */
  datatype Json =
    | JDict(entries: seq<(string, Json)>)
    | JList(items: seq<Json>)
    | JScalar(text: string)
  {
    predicate IsContainer() { JDict? || JList? }
  }

  /** '  ' * depth. */
  function Indent(depth: nat): (r: string)
    ensures |r| == 2 * depth
    ensures forall i :: 0 <= i < |r| ==> r[i] == ' '
  {
    if depth == 0 then "" else "  " + Indent(depth - 1)
  }

  /** str.replace("\\n", "\n"): every two-character escape backslash-n,
      scanned left to right, becomes a real newline. */
  function Unescape(s: string): string
  {
    if |s| < 2 then s
    else if s[0] == '\\' && s[1] == 'n' then "\n" + Unescape(s[2..])
    else [s[0]] + Unescape(s[1..])
  }

  /** `s` holds no backslash directly followed by 'n'. */
  predicate NoEscapedNewline(s: string)
  {
    forall i :: 0 <= i < |s| - 1 ==> !(s[i] == '\\' && s[i + 1] == 'n')
  }

  /** After the replacement no escape is left, and text without escapes is
      left alone. */
  lemma {:induction false} UnescapeSpec(s: string)
    ensures NoEscapedNewline(Unescape(s))
    ensures |Unescape(s)| <= |s|
    ensures NoEscapedNewline(s) ==> Unescape(s) == s
    ensures Unescape(s) == [] <==> s == []
    ensures Unescape(s) != [] ==> Unescape(s)[0] == s[0] || Unescape(s)[0] == '\n'
    decreases |s|
  {
    if |s| >= 2 {
      if s[0] == '\\' && s[1] == 'n' {
        UnescapeSpec(s[2..]);
      } else {
        UnescapeSpec(s[1..]);
        var r := Unescape(s);
        var t := Unescape(s[1..]);
        assert r == [s[0]] + t;
        assert s[1..][0] == s[1];
        assert r[1..] == t;
        if NoEscapedNewline(s) {
          assert NoEscapedNewline(s[1..]) by {
            forall i | 0 <= i < |s[1..]| - 1 ensures !(s[1..][i] == '\\' && s[1..][i + 1] == 'n') {
              assert s[1..][i] == s[i + 1] && s[1..][i + 1] == s[i + 2];
            }
          }
          assert r == [s[0]] + s[1..] == s;
        }
      }
    }
  }

  // The lines that format_json_to_str collects before joining them with
  // "\n", as functions. The termination measure pairs each value with a
  // rank so that a function may call one of higher rank on the same value.

  /** format_json_to_str(data, depth). */
  function Format(data: Json, depth: nat): string
    decreases data, 3
  {
    TextFormat.Join("\n", Lines(data, depth))
  }

  function Lines(data: Json, depth: nat): seq<string>
    decreases data, 2
  {
    match data
    case JDict(es) => DictLines(data, depth, |es|)
    case JList(items) => ListLines(data, depth, |items|)
    case JScalar(v) => [Indent(depth) + Unescape(v)]
  }

  /** The lines of the first `n` entries of a dict. */
  function DictLines(data: Json, depth: nat, n: nat): seq<string>
    requires data.JDict? && n <= |data.entries|
    decreases data, 1, n
  {
    if n == 0 then []
    else DictLines(data, depth, n - 1) + EntryLines(data.entries[n - 1].0, data.entries[n - 1].1, depth)
  }

  /** A dict entry: `key: value` for a scalar, or a `key:` line followed by
      the nested value formatted one level deeper. */
  function EntryLines(key: string, value: Json, depth: nat): seq<string>
    decreases value, 4
  {
    if value.IsContainer() then [Indent(depth) + key + ":", Format(value, depth + 1)]
    else [Indent(depth) + key + ": " + Unescape(value.text)]
  }

  /** The lines of the first `n` items of a list. */
  function ListLines(data: Json, depth: nat, n: nat): seq<string>
    requires data.JList? && n <= |data.items|
    decreases data, 1, n
  {
    if n == 0 then []
    else ListLines(data, depth, n - 1) + [ItemLine(data.items[n - 1], depth)]
  }

  /** A list item: `- ` and the item formatted one level deeper, stripped. */
  function ItemLine(item: Json, depth: nat): string
    decreases item, 4
  {
    Indent(depth) + "- " + TextFormat.Strip(Format(item, depth + 1))
  }

  /** format_json_to_str, as the source writes it: a loop over the entries
      or items that appends lines, a recursive call for nested values, and
      a final join. */
  method FormatJsonToStr(data: Json, indent: nat) returns (s: string)
    ensures s == Format(data, indent)
    decreases data
  {
    var lines: seq<string> := [];
    var indentStr := Indent(indent);
    match data {
      case JDict(es) =>
        for i := 0 to |es|
          invariant lines == DictLines(data, indent, i)
        {
          var key := es[i].0;
          var value := es[i].1;
          if value.IsContainer() {
            lines := lines + [indentStr + key + ":"];
            var nested := FormatJsonToStr(value, indent + 1);
            lines := lines + [nested];
          } else {
            var valueStr := Unescape(value.text);
            lines := lines + [indentStr + key + ": " + valueStr];
          }
        }
      case JList(items) =>
        for i := 0 to |items|
          invariant lines == ListLines(data, indent, i)
        {
          var nested := FormatJsonToStr(items[i], indent + 1);
          lines := lines + [indentStr + "- " + TextFormat.Strip(nested)];
        }
      case JScalar(v) =>
        var valueStr := Unescape(v);
        lines := lines + [indentStr + valueStr];
    }
    s := TextFormat.Join("\n", lines);
  }

  // ---------------------------------------------------------------------
  // Properties of the output
  // ---------------------------------------------------------------------

  lemma {:induction false} JoinAppend(sep: string, xs: seq<string>, ys: seq<string>)
    requires xs != [] && ys != []
    ensures TextFormat.Join(sep, xs + ys) == TextFormat.Join(sep, xs) + sep + TextFormat.Join(sep, ys)
    decreases |xs|
  {
    if |xs| == 1 {
      assert (xs + ys)[1..] == ys;
    } else {
      assert (xs + ys)[1..] == xs[1..] + ys;
      JoinAppend(sep, xs[1..], ys);
    }
  }

  lemma {:induction false} JoinStartsWithFirst(sep: string, xs: seq<string>)
    requires xs != []
    ensures xs[0] <= TextFormat.Join(sep, xs)
  {
  }

  /** The lines of a dict depend only on its entries, so the lines of
      `a + b` are those of `a` followed by those of `b`. */
  lemma {:induction false} DictLinesAppend(a: seq<(string, Json)>, b: seq<(string, Json)>, depth: nat, k: nat)
    requires k <= |b|
    ensures DictLines(JDict(a + b), depth, |a| + k)
         == DictLines(JDict(a), depth, |a|) + DictLines(JDict(b), depth, k)
    decreases k
  {
    if k == 0 {
      DictLinesPrefix(a, a + b, depth, |a|);
    } else {
      DictLinesAppend(a, b, depth, k - 1);
      assert (a + b)[|a| + k - 1] == b[k - 1];
    }
  }

  lemma {:induction false} DictLinesPrefix(a: seq<(string, Json)>, c: seq<(string, Json)>, depth: nat, n: nat)
    requires n <= |a| && n <= |c| && a[..n] == c[..n]
    ensures DictLines(JDict(a), depth, n) == DictLines(JDict(c), depth, n)
    decreases n
  {
    if n > 0 {
      assert a[n - 1] == a[..n][n - 1] == c[..n][n - 1] == c[n - 1];
      assert a[..n - 1] == c[..n - 1] by {
        assert a[..n - 1] == a[..n][..n - 1];
        assert c[..n - 1] == c[..n][..n - 1];
      }
      DictLinesPrefix(a, c, depth, n - 1);
    }
  }

  lemma {:induction false} DictLinesNonEmpty(data: Json, depth: nat, n: nat)
    requires data.JDict? && 0 < n <= |data.entries|
    ensures DictLines(data, depth, n) != []
    ensures DictLines(data, depth, n)[0] == EntryLines(data.entries[0].0, data.entries[0].1, depth)[0]
    decreases n
  {
    if n > 1 { DictLinesNonEmpty(data, depth, n - 1); }
  }

  lemma {:induction false} ListLinesNonEmpty(data: Json, depth: nat, n: nat)
    requires data.JList? && 0 < n <= |data.items|
    ensures ListLines(data, depth, n) != []
    ensures ListLines(data, depth, n)[0] == ItemLine(data.items[0], depth)
    decreases n
  {
    if n > 1 { ListLinesNonEmpty(data, depth, n - 1); }
  }

  lemma {:induction false} ListLinesAppend(a: seq<Json>, b: seq<Json>, depth: nat, k: nat)
    requires k <= |b|
    ensures ListLines(JList(a + b), depth, |a| + k)
         == ListLines(JList(a), depth, |a|) + ListLines(JList(b), depth, k)
    decreases k
  {
    if k == 0 {
      ListLinesPrefix(a, a + b, depth, |a|);
    } else {
      ListLinesAppend(a, b, depth, k - 1);
      assert (a + b)[|a| + k - 1] == b[k - 1];
    }
  }

  lemma {:induction false} ListLinesPrefix(a: seq<Json>, c: seq<Json>, depth: nat, n: nat)
    requires n <= |a| && n <= |c| && a[..n] == c[..n]
    ensures ListLines(JList(a), depth, n) == ListLines(JList(c), depth, n)
    decreases n
  {
    if n > 0 {
      assert a[n - 1] == a[..n][n - 1] == c[..n][n - 1] == c[n - 1];
      assert a[..n - 1] == c[..n - 1] by {
        assert a[..n - 1] == a[..n][..n - 1];
        assert c[..n - 1] == c[..n][..n - 1];
      }
      ListLinesPrefix(a, c, depth, n - 1);
    }
  }

  /** The entries of a dict are formatted in insertion order, one after the
      other, separated by a single newline. */
  lemma DictConcat(a: seq<(string, Json)>, b: seq<(string, Json)>, depth: nat)
    requires a != [] && b != []
    ensures Format(JDict(a + b), depth) == Format(JDict(a), depth) + "\n" + Format(JDict(b), depth)
  {
    DictLinesAppend(a, b, depth, |b|);
    DictLinesNonEmpty(JDict(a), depth, |a|);
    DictLinesNonEmpty(JDict(b), depth, |b|);
    JoinAppend("\n", DictLines(JDict(a), depth, |a|), DictLines(JDict(b), depth, |b|));
  }

  /** The items of a list are formatted in order, separated by a single
      newline. */
  lemma ListConcat(a: seq<Json>, b: seq<Json>, depth: nat)
    requires a != [] && b != []
    ensures Format(JList(a + b), depth) == Format(JList(a), depth) + "\n" + Format(JList(b), depth)
  {
    ListLinesAppend(a, b, depth, |b|);
    ListLinesNonEmpty(JList(a), depth, |a|);
    ListLinesNonEmpty(JList(b), depth, |b|);
    JoinAppend("\n", ListLines(JList(a), depth, |a|), ListLines(JList(b), depth, |b|));
  }

  /** An empty dict or list formats to "". */
  lemma FormatEmpty(depth: nat)
    ensures Format(JDict([]), depth) == ""
    ensures Format(JList([]), depth) == ""
  {
  }

  /** A scalar entry at depth d is 2*d spaces, the key, ": " and the value
      with its escaped newlines made real. */
  lemma FormatScalarEntry(key: string, v: string, depth: nat)
    ensures Format(JDict([(key, JScalar(v))]), depth) == Indent(depth) + key + ": " + Unescape(v)
  {
    assert DictLines(JDict([(key, JScalar(v))]), depth, 1) == [Indent(depth) + key + ": " + Unescape(v)];
  }

  /** A dict or list entry is a `key:` line followed, after one newline, by
      the value formatted one level deeper; an empty one leaves `key:` and
      a trailing newline. */
  lemma FormatNestedEntry(key: string, v: Json, depth: nat)
    requires v.IsContainer()
    ensures Format(JDict([(key, v)]), depth) == Indent(depth) + key + ":\n" + Format(v, depth + 1)
    ensures v == JList([]) || v == JDict([]) ==> Format(JDict([(key, v)]), depth) == Indent(depth) + key + ":\n"
  {
    assert DictLines(JDict([(key, v)]), depth, 1) == [Indent(depth) + key + ":", Format(v, depth + 1)];
    assert TextFormat.Join("\n", [Indent(depth) + key + ":", Format(v, depth + 1)])
        == Indent(depth) + key + ":" + "\n" + Format(v, depth + 1);
  }

  /** A list item is `- ` and the stripped formatting of the item one level
      deeper. */
  lemma FormatListItem(item: Json, depth: nat)
    ensures Format(JList([item]), depth) == Indent(depth) + "- " + TextFormat.Strip(Format(item, depth + 1))
  {
    assert ListLines(JList([item]), depth, 1) == [ItemLine(item, depth)];
  }

  /** A top-level scalar is the indentation and its str() text with escaped
      newlines made real. */
  lemma FormatScalar(v: string, depth: nat)
    ensures Format(JScalar(v), depth) == Indent(depth) + Unescape(v)
  {
  }

  /** Every non-empty container, and every scalar, starts with the
      indentation of its depth; the output is empty only for an empty
      container or an empty scalar at depth 0. */
  lemma FormatShape(data: Json, depth: nat)
    ensures data != JDict([]) && data != JList([]) ==> Indent(depth) <= Format(data, depth)
    ensures Format(data, depth) == "" <==>
      data == JDict([]) || data == JList([]) || (depth == 0 && data == JScalar(""))
  {
    match data {
      case JDict(es) =>
        if es != [] { DictShape(data, depth); } else { FormatEmpty(depth); }
      case JList(items) =>
        if items != [] { ListShape(data, depth); } else { FormatEmpty(depth); }
      case JScalar(v) =>
        UnescapeSpec(v);
        FormatScalar(v, depth);
    }
  }

  lemma DictShape(data: Json, depth: nat)
    requires data.JDict? && data.entries != []
    ensures Indent(depth) <= Format(data, depth) && Format(data, depth) != ""
  {
    var es := data.entries;
    var lines := DictLines(data, depth, |es|);
    DictLinesNonEmpty(data, depth, |es|);
    assert Format(data, depth) == TextFormat.Join("\n", lines);
    JoinStartsWithFirst("\n", lines);
    var first := lines[0];
    var head := Indent(depth) + es[0].0 + ":";
    assert first == head + (if es[0].1.IsContainer() then "" else " " + Unescape(es[0].1.text));
    assert Indent(depth) <= head <= first;
    assert |first| >= |head| > 0;
  }

  lemma ListShape(data: Json, depth: nat)
    requires data.JList? && data.items != []
    ensures Indent(depth) <= Format(data, depth) && Format(data, depth) != ""
  {
    var items := data.items;
    var lines := ListLines(data, depth, |items|);
    ListLinesNonEmpty(data, depth, |items|);
    assert Format(data, depth) == TextFormat.Join("\n", lines);
    JoinStartsWithFirst("\n", lines);
    var first := lines[0];
    var head := Indent(depth) + "- ";
    assert first == head + TextFormat.Strip(Format(items[0], depth + 1));
    assert Indent(depth) <= head <= first;
    assert |first| >= |head| > 0;
  }
}
