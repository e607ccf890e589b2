/** The printer on its output stream, against the printed text as a function. */
module ConfigPrinter {
  import opened ConfigJson

  class Stream {
    var text: string

    constructor ()
      ensures text == ""
    {
      text := "";
    }

    method Write(piece: string)
      modifies this
      ensures text == old(text) + piece
    {
      text := text + piece;
    }

    method WriteEscaped(s: string)
      modifies this
      ensures text == old(text) + Escape(s)
    {
      hide EscapeChar;
      ghost var before := text;
      assert s[0..] == s;
      for i := 0 to |s|
        invariant before + Escape(s) == text + Escape(s[i..])
      {
        EscapeStep(text, s, i);
        Write(EscapeChar(s[i]));
      }
      assert text + "" == text;
    }

    method WriteList(items: seq<Value>, indent: nat)
      requires items != []
      modifies this
      ensures text == old(text) + Dump(List(items), indent)
      decreases items, 1
    {
      hide Dump, DumpItems, Spaces;
      Write("[\n");
      ghost var before := text;
      assert items[0..] == items;
      for i := 0 to |items|
        invariant before + DumpItems(items, indent) == text + DumpItems(items[i..], indent)
      {
        ItemStep(text, items, i, indent);
        Write(Spaces(indent) + "  ");
        WriteValue(items[i], indent + 1);
        if i < |items| - 1 { Write(","); }
        Write("\n");
      }
      assert items[|items|..] == [];
      ListEnd(indent);
      Write(Spaces(indent) + "]");
      ListText(old(text), items, indent);
    }

    method WriteMap(entries: seq<Entry>, indent: nat)
      requires entries != []
      modifies this
      ensures text == old(text) + Dump(Map(entries), indent)
      decreases entries, 1
    {
      hide Dump, DumpEntries, Spaces;
      Write("{\n");
      ghost var before := text;
      assert entries[0..] == entries;
      var first := true;
      for i := 0 to |entries|
        invariant first <==> i == 0
        invariant before + DumpEntries(entries, indent)
               == text + if i == 0 then DumpEntries(entries, indent) else AfterValue(entries[i - 1..], indent)
      {
        EntryStep(text, entries, i, indent);
        if !first { Write(",\n"); }
        first := false;
        Write(Spaces(indent) + "  \"" + entries[i].key + "\": ");
        WriteValue(entries[i].value, indent + 1);
      }
      MapEnd(entries, indent);
      Write("\n" + Spaces(indent) + "}");
      MapText(old(text), entries, indent);
    }

    /** `dump_json_locked`. */
    method WriteValue(v: Value, indent: nat)
      modifies this
      ensures text == old(text) + Dump(v, indent)
      decreases v, 2
    {
      match v
      case Null => Write("null");
      case Bool(b) => Write(if b then "true" else "false");
      case Int(n) => Write(IntText(n));
      case Double(digits) => Write(digits);
      case Str(s) =>
        Write("\"");
        WriteEscaped(s);
        Write("\"");
        QuotedText(old(text), s);
      case List(items) => if items == [] { Write("[]"); } else { WriteList(items, indent); }
      case Map(entries) => if entries == [] { Write("{}"); } else { WriteMap(entries, indent); }
    }
  }

  /** `dump_json`. */
  method PrintJson(v: Value) returns (text: string)
    ensures text == DumpJson(v)
  {
    var o := new Stream();
    o.WriteValue(v, 0);
    assert "" + Dump(v, 0) == Dump(v, 0);
    text := o.text;
  }

  lemma QuotedText(before: string, s: string)
    ensures ((before + "\"") + Escape(s)) + "\"" == before + ("\"" + Escape(s) + "\"")
  {
  }

  lemma EscapeStep(text: string, s: string, i: nat)
    requires i < |s|
    ensures text + Escape(s[i..]) == (text + EscapeChar(s[i])) + Escape(s[i + 1..])
  {
    assert s[i..][1..] == s[i + 1..];
  }

  // ---------- lists ----------

  lemma ItemStep(text: string, items: seq<Value>, i: nat, indent: nat)
    requires i < |items|
    ensures var line := (text + (Spaces(indent) + "  ")) + Dump(items[i], indent + 1);
      text + DumpItems(items[i..], indent)
      == ((if i < |items| - 1 then line + "," else line) + "\n") + DumpItems(items[i + 1..], indent)
  {
    hide Dump, Spaces;
    var rest := items[i..];
    assert rest[0] == items[i] && rest[1..] == items[i + 1..];
    var d, tail := Dump(items[i], indent + 1), DumpItems(items[i + 1..], indent);
    var comma := if |rest| > 1 then "," else "";
    assert DumpItems(rest, indent) == Spaces(indent) + "  " + (d + (comma + ("\n" + tail)));
    Associate(text, Spaces(indent) + "  ", d, comma, "\n", tail);
  }

  lemma Associate(a: string, b: string, c: string, d: string, e: string, f: string)
    ensures a + (b + (c + (d + (e + f)))) == (((a + b + c) + d) + e) + f
  {
  }

  lemma ListEnd(indent: nat)
    ensures DumpItems([], indent) == Spaces(indent) + "]"
  {
  }

  lemma ListText(before: string, items: seq<Value>, indent: nat)
    requires items != []
    ensures (before + "[\n") + DumpItems(items, indent) == before + Dump(List(items), indent)
  {
    hide DumpItems;
    var body := DumpItems(items, indent);
    assert "[" + ("\n" + body) == "[\n" + body;
  }

  // ---------- maps ----------

  lemma {:induction false} EntryText(entries: seq<Entry>, indent: nat)
    requires entries != []
    ensures DumpEntries(entries, indent)
         == (Spaces(indent) + "  \"" + entries[0].key + "\": ") + Dump(entries[0].value, indent + 1) + AfterValue(entries, indent)
  {
    hide Dump, Spaces;
    var k, d, tail := entries[0].key, Dump(entries[0].value, indent + 1), AfterValue(entries, indent);
    assert DumpEntries(entries, indent) == Spaces(indent) + "  " + ("\"" + (k + ("\"" + (": " + (d + tail)))));
    assert "\"" + (": " + (d + tail)) == "\": " + (d + tail);
    assert Spaces(indent) + "  " + ("\"" + (k + ("\": " + (d + tail)))) == (Spaces(indent) + "  \"" + k + "\": ") + d + tail;
  }

  lemma {:induction false} EntryStep(text: string, entries: seq<Entry>, i: nat, indent: nat)
    requires i < |entries|
    ensures var line := Spaces(indent) + "  \"" + entries[i].key + "\": ";
      var d, tail := Dump(entries[i].value, indent + 1), AfterValue(entries[i..], indent);
      && (i == 0 ==> text + DumpEntries(entries, indent) == ((text + line) + d) + tail)
      && (i > 0 ==> text + AfterValue(entries[i - 1..], indent) == (((text + ",\n") + line) + d) + tail)
  {
    hide Dump, Spaces, DumpEntries;
    var line := Spaces(indent) + "  \"" + entries[i].key + "\": ";
    var d, tail := Dump(entries[i].value, indent + 1), AfterValue(entries[i..], indent);
    EntryText(entries[i..], indent);
    assert entries[i..][0] == entries[i];
    Join3(text, line, d, tail);
    if i == 0 {
      assert entries[0..] == entries;
    } else {
      assert entries[i - 1..][1..] == entries[i..];
      assert AfterValue(entries[i - 1..], indent) == "," + ("\n" + DumpEntries(entries[i..], indent));
      assert "," + ("\n" + DumpEntries(entries[i..], indent)) == ",\n" + DumpEntries(entries[i..], indent);
      Join3(text + ",\n", line, d, tail);
      assert text + (",\n" + (line + d + tail)) == (text + ",\n") + (line + d + tail);
    }
  }

  lemma Join3(a: string, b: string, c: string, d: string)
    ensures a + (b + c + d) == ((a + b) + c) + d
  {
  }

  lemma MapEnd(entries: seq<Entry>, indent: nat)
    requires entries != []
    ensures AfterValue(entries[|entries| - 1..], indent) == "\n" + Spaces(indent) + "}"
  {
    assert "\n" + (Spaces(indent) + "}") == "\n" + Spaces(indent) + "}";
  }

  lemma MapText(before: string, entries: seq<Entry>, indent: nat)
    requires entries != []
    ensures (before + "{\n") + DumpEntries(entries, indent) == before + Dump(Map(entries), indent)
  {
    hide DumpEntries;
    var body := DumpEntries(entries, indent);
    assert "{" + ("\n" + body) == "{\n" + body;
  }
}
