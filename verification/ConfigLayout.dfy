/** How the configuration printer lays out a tree: every element on a line of its own, two blanks further in than its list. */
module ConfigLayout {
  import opened ConfigJson

  /** The text with every line but the first moved two blanks to the right. */
  function Indented(t: string): string {
    if t == "" then "" else (if t[0] == '\n' then "\n  " else [t[0]]) + Indented(t[1..])
  }

  lemma {:induction false} IndentedTogether(a: string, b: string)
    ensures Indented(a + b) == Indented(a) + Indented(b)
  {
    if a == "" {
      assert a + b == b;
    } else {
      IndentedTogether(a[1..], b);
      assert (a + b)[1..] == a[1..] + b;
      Regroup(if a[0] == '\n' then "\n  " else [a[0]], Indented(a[1..]), Indented(b));
    }
  }

  lemma Regroup(a: string, b: string, c: string)
    ensures a + (b + c) == (a + b) + c
  {
  }

  lemma {:induction false} OneLineStays(t: string)
    requires '\n' !in t
    ensures Indented(t) == t
  {
    if t != "" { OneLineStays(t[1..]); }
  }

  /** No key and no raw number of the tree holds a line break; texts are escaped and cannot. */
  predicate Unbroken(v: Value)
    decreases v
  {
    match v
    case Double(text) => '\n' !in text
    case List(items) => forall i :: 0 <= i < |items| ==> Unbroken(items[i])
    case Map(entries) => forall i :: 0 <= i < |entries| ==> '\n' !in entries[i].key && Unbroken(entries[i].value)
    case _ => true
  }

  lemma {:induction false} EscapedStays(s: string)
    ensures '\n' !in Escape(s)
  {
    hide EscapeChar;
    if s != "" {
      EscapedStays(s[1..]);
      EscapedOnOneLine(s[0]);
    }
  }

  lemma EscapedOnOneLine(c: char)
    ensures '\n' !in EscapeChar(c)
  {
  }

  lemma IntStays(n: int)
    ensures '\n' !in IntText(n)
  {
  }

  /** A step deeper, a tree is printed as before with every line but the first moved. */
  lemma {:induction false} Deeper(v: Value, n: nat)
    requires Unbroken(v)
    ensures Dump(v, n + 1) == Indented(Dump(v, n))
    decreases v, 2
  {
    hide Indented, Escape, IntText, DumpItems, DumpEntries;
    match v
    case Null => OneLineStays("null");
    case Bool(b) => OneLineStays(if b then "true" else "false");
    case Int(k) =>
      IntStays(k);
      OneLineStays(IntText(k));
    case Double(text) => OneLineStays(text);
    case Str(s) =>
      EscapedStays(s);
      OneLineStays("\"" + Escape(s) + "\"");
    case List(items) =>
      if items == [] {
        OneLineStays("[]");
      } else {
        ItemsDeeper(items, n);
        IndentedTogether("[", "\n" + DumpItems(items, n));
        OneLineStays("[");
      }
    case Map(entries) =>
      if entries == [] {
        OneLineStays("{}");
      } else {
        EntriesDeeper(entries, n);
        IndentedTogether("{", "\n" + DumpEntries(entries, n));
        OneLineStays("{");
      }
  }

  lemma {:induction false} SpacesStay(n: nat)
    ensures '\n' !in Spaces(n) && Indented("\n" + Spaces(n)) == "\n" + Spaces(n + 1)
  {
    SpacesOnly(n);
    NewLineMoves();
    assert Spaces(n + 1) == "  " + Spaces(n);
    hide Indented, Spaces;
    OneLineStays(Spaces(n));
    IndentedTogether("\n", Spaces(n));
    Regroup("\n", "  ", Spaces(n));
  }

  lemma NewLineMoves()
    ensures Indented("\n") == "\n" + "  "
  {
    assert "\n"[1..] == "" && Indented("") == "";
  }

  lemma {:induction false} SpacesOnly(n: nat)
    ensures '\n' !in Spaces(n)
  {
    if n > 0 { SpacesOnly(n - 1); }
  }

  lemma FiveParts(a: string, b: string, c: string, d: string, e: string)
    ensures Indented(a + (b + (c + (d + e)))) == Indented(a) + (Indented(b) + (Indented(c) + (Indented(d) + Indented(e))))
  {
    hide Indented;
    IndentedTogether(a, b + (c + (d + e)));
    IndentedTogether(b, c + (d + e));
    IndentedTogether(c, d + e);
    IndentedTogether(d, e);
  }

  /** The elements, taken apart: a new line, two blanks, the element, a comma if more follow, the rest. */
  lemma ItemsParts(items: seq<Value>, n: nat)
    ensures items == [] ==> "\n" + DumpItems(items, n) == ("\n" + Spaces(n)) + "]"
    ensures items != [] ==>
      "\n" + DumpItems(items, n)
      == ("\n" + Spaces(n)) + ("  " + (Dump(items[0], n + 1) + ((if |items| > 1 then "," else "") + ("\n" + DumpItems(items[1..], n)))))
  {
    hide Dump;
  }

  lemma {:induction false} ItemsDeeper(items: seq<Value>, n: nat)
    requires forall i :: 0 <= i < |items| ==> Unbroken(items[i])
    ensures "\n" + DumpItems(items, n + 1) == Indented("\n" + DumpItems(items, n))
    decreases items, 1
  {
    hide Indented, Dump, DumpItems, Spaces, Unbroken;
    SpacesStay(n);
    ItemsParts(items, n);
    ItemsParts(items, n + 1);
    if items == [] {
      IndentedTogether("\n" + Spaces(n), "]");
      OneLineStays("]");
    } else {
      var comma := if |items| > 1 then "," else "";
      Deeper(items[0], n + 1);
      ItemsDeeper(items[1..], n);
      OneLineStays("  ");
      OneLineStays(comma);
      FiveParts("\n" + Spaces(n), "  ", Dump(items[0], n + 1), comma, "\n" + DumpItems(items[1..], n));
    }
  }

  lemma EntriesParts(entries: seq<Entry>, n: nat)
    requires entries != []
    ensures "\n" + DumpEntries(entries, n)
         == ("\n" + Spaces(n)) + (("  \"" + entries[0].key + "\": ") + (Dump(entries[0].value, n + 1)
            + ((if |entries| > 1 then "," else "") + (if |entries| > 1 then "\n" + DumpEntries(entries[1..], n) else ("\n" + Spaces(n)) + "}"))))
  {
    hide Dump, Spaces;
    var e, more := entries[0], |entries| > 1;
    var rest := if more then "," + ("\n" + DumpEntries(entries[1..], n)) else "\n" + (Spaces(n) + "}");
    Assemble(Spaces(n), e.key, Dump(e.value, n + 1), rest);
    if !more {
      Regroup("\n", Spaces(n), "}");
      assert rest == "" + (("\n" + Spaces(n)) + "}");
    }
  }

  lemma Assemble(sp: string, key: string, d: string, rest: string)
    ensures "\n" + (sp + "  " + ("\"" + (key + ("\"" + (": " + (d + rest)))))) == ("\n" + sp) + (("  \"" + key + "\": ") + (d + rest))
  {
  }

  lemma {:induction false} EntriesDeeper(entries: seq<Entry>, n: nat)
    requires entries != [] && forall i :: 0 <= i < |entries| ==> '\n' !in entries[i].key && Unbroken(entries[i].value)
    ensures "\n" + DumpEntries(entries, n + 1) == Indented("\n" + DumpEntries(entries, n))
    decreases entries, 1
  {
    hide Indented, Dump, DumpEntries, Spaces, Unbroken;
    var head, comma := "  \"" + entries[0].key + "\": ", if |entries| > 1 then "," else "";
    var tail := if |entries| > 1 then "\n" + DumpEntries(entries[1..], n) else ("\n" + Spaces(n)) + "}";
    SpacesStay(n);
    EntriesParts(entries, n);
    EntriesParts(entries, n + 1);
    Deeper(entries[0].value, n + 1);
    OneLineStays(head);
    OneLineStays(comma);
    if |entries| > 1 {
      EntriesDeeper(entries[1..], n);
    } else {
      IndentedTogether("\n" + Spaces(n), "}");
      OneLineStays("}");
    }
    FiveParts("\n" + Spaces(n), head, Dump(entries[0].value, n + 1), comma, tail);
  }

  // ---------- the layout ----------

  function ItemLines(items: seq<Value>): string {
    if items == [] then ""
    else "\n  " + Indented(DumpJson(items[0])) + (if |items| > 1 then "," else "") + ItemLines(items[1..])
  }

  function EntryLines(entries: seq<Entry>): string {
    if entries == [] then ""
    else "\n  \"" + entries[0].key + "\": " + Indented(DumpJson(entries[0].value)) + (if |entries| > 1 then "," else "") + EntryLines(entries[1..])
  }

  /** A list or a map is printed as its parts are printed by themselves, indented, each on its lines, commas between them. */
  lemma LayoutExactly(v: Value)
    requires Unbroken(v)
    ensures v.List? ==> DumpJson(v) == if v.items == [] then "[]" else "[" + ItemLines(v.items) + "\n]"
    ensures v.Map? ==> DumpJson(v) == if v.entries == [] then "{}" else "{" + EntryLines(v.entries) + "\n}"
  {
    hide DumpItems, DumpEntries, ItemLines, EntryLines;
    if v.List? && v.items != [] { ItemsAreLines(v.items); }
    if v.Map? && v.entries != [] { EntriesAreLines(v.entries); }
  }

  lemma NoSpaces()
    ensures Spaces(0) == ""
  {
  }

  lemma {:induction false} ItemsAreLines(items: seq<Value>)
    requires forall i :: 0 <= i < |items| ==> Unbroken(items[i])
    ensures "\n" + DumpItems(items, 0) == ItemLines(items) + "\n]"
    decreases |items|
  {
    hide Indented, Dump, DumpItems, Unbroken, Spaces;
    NoSpaces();
    ItemsParts(items, 0);
    if items != [] {
      var comma := if |items| > 1 then "," else "";
      Deeper(items[0], 0);
      ItemsAreLines(items[1..]);
      assert ItemLines(items) + "\n]" == "\n  " + (Indented(DumpJson(items[0])) + (comma + (ItemLines(items[1..]) + "\n]")));
    }
  }

  lemma {:induction false} EntriesAreLines(entries: seq<Entry>)
    requires entries != [] && forall i :: 0 <= i < |entries| ==> '\n' !in entries[i].key && Unbroken(entries[i].value)
    ensures "\n" + DumpEntries(entries, 0) == EntryLines(entries) + "\n}"
    decreases |entries|
  {
    hide Indented, Dump, DumpEntries, Unbroken, Spaces;
    var key, value, more := entries[0].key, Indented(DumpJson(entries[0].value)), |entries| > 1;
    var lines, tail := EntryLines(entries[1..]), if more then "\n" + DumpEntries(entries[1..], 0) else "\n}";
    Deeper(entries[0].value, 0);
    FirstEntry(entries);
    EntryLinesAre(entries);
    if more { EntriesAreLines(entries[1..]); } else { assert entries[1..] == []; }
    assert tail == lines + "\n}";
    hide EntryLines;
    OneEntry(key, value, if more then "," else "", lines);
  }

  lemma EntryLinesAre(entries: seq<Entry>)
    requires entries != []
    ensures EntryLines(entries) == "\n  \"" + entries[0].key + "\": " + Indented(DumpJson(entries[0].value)) + (if |entries| > 1 then "," else "") + EntryLines(entries[1..])
  {
  }

  lemma FirstEntry(entries: seq<Entry>)
    requires entries != []
    ensures "\n" + DumpEntries(entries, 0)
         == "\n" + (("  \"" + entries[0].key + "\": ") + (Dump(entries[0].value, 1)
            + ((if |entries| > 1 then "," else "") + (if |entries| > 1 then "\n" + DumpEntries(entries[1..], 0) else "\n}"))))
  {
    hide Dump, DumpEntries, Spaces;
    var start := "\n" + Spaces(0);
    NoSpaces();
    assert start == "\n" && start + "}" == "\n}";
    EntriesParts(entries, 0);
  }

  lemma OneEntry(key: string, value: string, comma: string, rest: string)
    ensures "\n  \"" + key + "\": " + value + comma + rest + "\n}" == "\n" + (("  \"" + key + "\": ") + (value + (comma + (rest + "\n}"))))
  {
  }
}
