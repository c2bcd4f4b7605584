/** What is nested too deeply is printed, but not read back. */
module JsonDepth {
  import opened BitStrings
  import opened JsonValues
  import opened JsonGrammar
  import opened JsonRoundTrip

  /** A printed value with a node that is too deep is rejected, wherever the text before it leads to it. */
  lemma {:induction false} TooDeepFails(s: Text, j: nat, i: nat, v: Json, depth: int, comments: bool)
    requires j <= i && Plain(v) && !Within(v, MAX_DEPTH - depth) && At(s, i, Dump(v)) && Ends(s, i + |Dump(v)|)
    requires Token(s, j, comments) == Some(i)
    ensures ValueAt(s, j, depth, comments).None?
    decreases v, 2, 0
  {
    hide Plain, Token, Dump, ItemsAt, FieldsAt;
    if depth <= MAX_DEPTH {
      match v
      case Array(items) =>
        var m :| 0 <= m < |items| && !Within(items[m], MAX_DEPTH - depth - 1);
        ArrayFails(s, i, v, items, m, depth, comments);
      case Object(fields) =>
        var m :| 0 <= m < |fields| && !Within(fields[m].value, MAX_DEPTH - depth - 1);
        ObjectFails(s, i, v, fields, m, depth, comments);
      case _ =>
    }
  }

  lemma ArrayFails(s: Text, i: nat, v: Json, items: seq<Json>, m: nat, depth: int, comments: bool)
    requires v == Array(items) && m < |items| && Plain(v) && At(s, i, Dump(v)) && depth <= MAX_DEPTH
    requires !Within(items[m], MAX_DEPTH - depth - 1)
    ensures i < |s| && TokenAt(s, i, depth, comments).None?
    decreases v, 1, |items| + 1
  {
    hide Plain, Token, Dump, ItemsAt, Within;
    ArrayLayout(s, i, items);
    TokenHere(s, i + 1, comments);
    ArrayStep(s, i, depth, comments);
    ItemsFail(s, i + 1, v, items, 0, m, depth, comments, []);
  }

  /** The items from the `k`-th on, one of which is too deep. */
  lemma ItemsFail(s: Text, i: nat, v: Json, items: seq<Json>, k: nat, m: nat, depth: int, comments: bool,
                  done: seq<Json>)
    requires v == Array(items) && k <= m < |items| && Plain(v) && At(s, i, ItemsText(items, k)) && depth <= MAX_DEPTH
    requires !Within(items[m], MAX_DEPTH - depth - 1)
    ensures i < |s| && ItemsAt(s, i, depth, comments, done).None?
    decreases v, 1, |items| - k
  {
    hide Token, Dump, ItemsText, Within, ValueAt;
    var e := i + |Dump(items[k])|;
    if Within(items[k], MAX_DEPTH - depth - 1) {
      ItemsTurn(s, i, v, items, k, depth, comments, done, e);
      ItemsFail(s, e + 2, v, items, k + 1, m, depth, comments, done + [Reread(items[k])]);
    } else {
      ItemsLayout(s, i, items, k, e);
      FirstByte(items[k]);
      AtByte(s, i, Dump(items[k]), 0);
      TokenHere(s, i, comments);
      TooDeepFails(s, i, i, items[k], depth + 1, comments);
    }
  }

  lemma ObjectFails(s: Text, i: nat, v: Json, fields: seq<Field>, m: nat, depth: int, comments: bool)
    requires v == Object(fields) && m < |fields| && Plain(v) && At(s, i, Dump(v)) && depth <= MAX_DEPTH
    requires !Within(fields[m].value, MAX_DEPTH - depth - 1)
    ensures i < |s| && TokenAt(s, i, depth, comments).None?
    decreases v, 1, |fields| + 1
  {
    hide Token, Dump, FieldsAt, Within;
    ObjectLayout(s, i, fields);
    TokenHere(s, i + 1, comments);
    ObjectStep(s, i, depth, comments);
    FieldsFail(s, i + 1, v, fields, 0, m, depth, comments, []);
  }

  /** The entries from the `k`-th on, the value of one of which is too deep. */
  lemma FieldsFail(s: Text, i: nat, v: Json, fields: seq<Field>, k: nat, m: nat, depth: int, comments: bool,
                   done: seq<Field>)
    requires v == Object(fields) && k <= m < |fields| && Plain(v) && depth <= MAX_DEPTH
    requires At(s, i, FieldsText(fields, k))
    requires !Within(fields[m].value, MAX_DEPTH - depth - 1) && FieldsDone(fields, done, k)
    ensures i < |s| && FieldsAt(s, i, depth, comments, done).None?
    decreases v, 1, |fields| - k
  {
    hide Token, Dump, FieldsText, Within, ValueAt, DumpField, StringFrom;
    var e := i + |DumpField(fields[k])|;
    if Within(fields[k].value, MAX_DEPTH - depth - 1) {
      assert AllBefore(done, fields[k].key);
      FieldsTurn(s, i, v, fields, k, depth, comments, done, e);
      var next := done + [Field(fields[k].key, Reread(fields[k].value))];
      assert FieldsDone(fields, next, k + 1);
      FieldsFail(s, e + 2, v, fields, k + 1, m, depth, comments, next);
    } else {
      FieldFails(s, i, v, fields, k, depth, comments, done);
    }
  }

  lemma FieldFails(s: Text, i: nat, v: Json, fields: seq<Field>, k: nat, depth: int, comments: bool, done: seq<Field>)
    requires v == Object(fields) && k < |fields| && Plain(v) && At(s, i, FieldsText(fields, k)) && depth <= MAX_DEPTH
    requires !Within(fields[k].value, MAX_DEPTH - depth - 1)
    ensures i < |s| && FieldsAt(s, i, depth, comments, done).None?
    decreases v, 1, 0
  {
    hide Token, Dump, FieldsText, Within, ValueAt, StringFrom, DumpBytes, DumpText;
    var f := fields[k];
    var e, colon := i + |DumpField(f)|, i + |DumpText(f.key)|;
    FieldsLayout(s, i, fields, k, e);
    FirstByte(f.value);
    FieldLayout(s, i, DumpText(f.key), Dump(f.value), colon);
    TextReads(s, i, f.key);
    TokenHere(s, colon, comments);
    NextToken(s, colon, f.value, Dump(f.value), comments);
    TooDeepFails(s, colon + 1, colon + 2, f.value, depth + 1, comments);
  }

  /** What is printed is read back exactly when no node lies deeper than the limit of the parser. */
  lemma ParsesWithinDepth(v: Json, comments: bool)
    requires Plain(v)
    ensures Parse(Dump(v), comments).Some? <==> Within(v, MAX_DEPTH)
  {
    hide TokenAt, Dump, Plain, Within;
    if Within(v, MAX_DEPTH) {
      ParseOfDump(v, comments);
    } else {
      var s := Dump(v);
      FirstByte(v);
      TokenHere(s, 0, comments);
      assert s[0..|s|] == s;
      TooDeepFails(s, 0, 0, v, 0, comments);
    }
  }
}
