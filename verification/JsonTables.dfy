/** How values are printed, byte by byte, and what an object and a code point are. */
module JsonTables {
  import opened BitStrings
  import opened HexDigits
  import opened JsonValues
  import opened JsonGrammar
  import opened JsonSyntax

  /* Printing */

  function LowerUnit(a: Nibble, b: Nibble, c: Nibble, d: Nibble): Char {
    Unit(Hex(a, false), Hex(b, false), Hex(c, false), Hex(d, false))
  }

  /** A byte with a letter of its own is printed with it, but for the slash; another control character by its number;
      and every other byte as it is. */
  lemma DumpByteIs(b: Byte)
    ensures forall k: Letter :: MEANINGS[k] == b && k != 2 ==> DumpByte(b) == CharText(Short(k))
    ensures b < 32 && b !in MEANINGS ==> DumpByte(b) == CharText(LowerUnit(0, 0, b / 16, b % 16))
    ensures b >= 32 && b != 34 && b != 92 ==> DumpByte(b) == [b]
  {
    forall k: Letter | MEANINGS[k] == b && k != 2 ensures DumpByte(b) == CharText(Short(k)) {
      assert k == 0 || k == 1 || k == 3 || k == 4 || k == 5 || k == 6 || k == 7;
    }
    if b < 32 && b !in MEANINGS {
      assert b != MEANINGS[3] && b != MEANINGS[4] && b != MEANINGS[5] && b != MEANINGS[6] && b != MEANINGS[7];
    }
  }

  /** The line separator U+2028 and the paragraph separator U+2029 are printed by their numbers wherever they stand. */
  lemma SeparatorPrinted(rest: Text, last: nat)
    requires last == 8 || last == 9
    ensures DumpBytes(EncodeUtf8(0x2020 + last) + rest) == CharText(LowerUnit(2, 0, 2, last)) + DumpBytes(rest)
  {
    hide DumpByte;
    var text := [0xe2, 0x80, 0xa0 + last] + rest;
    assert EncodeUtf8(0x2020 + last) == [0xe2, 0x80, 0xa0 + last];
    assert text[3..] == rest && Separator(text);
  }

  /** And nothing else is. */
  lemma BytePrinted(b: Byte, rest: Text)
    requires !(EncodeUtf8(0x2028) <= [b] + rest) && !(EncodeUtf8(0x2029) <= [b] + rest)
    ensures DumpBytes([b] + rest) == DumpByte(b) + DumpBytes(rest)
  {
    hide DumpByte, DumpSeparator;
    var text := [b] + rest;
    assert text[1..] == rest;
    assert EncodeUtf8(0x2028) == [0xe2, 0x80, 0xa8] && EncodeUtf8(0x2029) == [0xe2, 0x80, 0xa9];
  }

  lemma {:induction false} MoreItemsAppend(items: seq<Json>, x: Json)
    ensures MoreItems(items + [x]) == MoreItems(items) + ([44, 32] + Dump(x))
  {
    hide Dump;
    if items == [] {
      assert items + [x] == [x] && [x][1..] == [];
      assert MoreItems([]) + ([44, 32] + Dump(x)) == [44, 32] + Dump(x) + [];
    } else {
      MoreItemsAppend(items[1..], x);
      assert (items + [x])[1..] == items[1..] + [x];
      Reassociate([44, 32] + Dump(items[0]), MoreItems(items[1..]), [44, 32] + Dump(x));
    }
  }

  lemma {:induction false} MoreFieldsAppend(fields: seq<Field>, f: Field)
    ensures MoreFields(fields + [f]) == MoreFields(fields) + ([44, 32] + DumpField(f))
  {
    hide DumpField;
    if fields == [] {
      assert fields + [f] == [f] && [f][1..] == [];
      assert MoreFields([]) + ([44, 32] + DumpField(f)) == [44, 32] + DumpField(f) + [];
    } else {
      MoreFieldsAppend(fields[1..], f);
      assert (fields + [f])[1..] == fields[1..] + [f];
      Reassociate([44, 32] + DumpField(fields[0]), MoreFields(fields[1..]), [44, 32] + DumpField(f));
    }
  }

  /** One item more: a comma, a space and the item before the bracket. */
  lemma DumpArrayIs(items: seq<Json>, x: Json)
    ensures Dump(Array([])) == [91, 93]
    ensures var d := Dump(Array(items));
            Dump(Array(items + [x])) == d[..|d| - 1] + (if items == [] then [] else [44, 32]) + Dump(x) + [93]
  {
    hide Dump;
    Brackets(items);
    Brackets(items + [x]);
    Brackets([]);
    if items == [] {
      assert items + [x] == [x] && DumpItems([x]) == Dump(x) + [];
    } else {
      MoreItemsAppend(items[1..], x);
      assert (items + [x])[1..] == items[1..] + [x];
      Reassociate(Dump(items[0]), MoreItems(items[1..]), [44, 32] + Dump(x));
      assert DumpItems(items + [x]) == DumpItems(items) + ([44, 32] + Dump(x));
    }
  }

  lemma Brackets(items: seq<Json>)
    ensures Dump(Array(items)) == [91] + DumpItems(items) + [93]
    ensures Dump(Array(items))[..|Dump(Array(items))| - 1] == [91] + DumpItems(items)
  {
    hide DumpItems;
  }

  /** One field more, with a colon and a space behind its key. */
  lemma DumpObjectIs(fields: seq<Field>, f: Field)
    ensures Dump(Object([])) == [123, 125]
    ensures var d := Dump(Object(fields));
            Dump(Object(fields + [f]))
            == d[..|d| - 1] + (if fields == [] then [] else [44, 32])
               + (DumpText(f.key) + [58, 32] + Dump(f.value)) + [125]
  {
    hide Dump, DumpText;
    Braces(fields);
    Braces(fields + [f]);
    Braces([]);
    if fields == [] {
      assert fields + [f] == [f] && DumpFields([f]) == DumpField(f) + [];
    } else {
      MoreFieldsAppend(fields[1..], f);
      assert (fields + [f])[1..] == fields[1..] + [f];
      Reassociate(DumpField(fields[0]), MoreFields(fields[1..]), [44, 32] + DumpField(f));
      assert DumpFields(fields + [f]) == DumpFields(fields) + ([44, 32] + DumpField(f));
    }
  }

  lemma Braces(fields: seq<Field>)
    ensures Dump(Object(fields)) == [123] + DumpFields(fields) + [125]
    ensures Dump(Object(fields))[..|Dump(Object(fields))| - 1] == [123] + DumpFields(fields)
  {
    hide DumpFields;
  }

  /* Code points */

  /** The bits of a byte below the mark at its top. */
  function Below(b: Byte, mark: nat): nat
    requires mark > 0
  {
    b % mark
  }

  /** The number of bytes by the size of the code point, the marks at the top of each byte, and the bits below them,
      as section 3 of RFC 3629 lays them out. */
  predicate Utf8Of(t: Text, pt: nat) {
    if pt < 0x80 then t == [pt]
    else if pt < 0x800 then
      |t| == 2 && t[0] / 32 == 6 && t[1] / 64 == 2 && Below(t[0], 32) * 64 + Below(t[1], 64) == pt
    else if pt < 0x1_0000 then
      && |t| == 3 && t[0] / 16 == 14 && t[1] / 64 == 2 && t[2] / 64 == 2
      && Below(t[0], 16) * 0x1000 + Below(t[1], 64) * 64 + Below(t[2], 64) == pt
    else
      && |t| == 4 && t[0] / 8 == 30 && t[1] / 64 == 2 && t[2] / 64 == 2 && t[3] / 64 == 2
      && Below(t[0], 8) * 0x4_0000 + Below(t[1], 64) * 0x1000 + Below(t[2], 64) * 64 + Below(t[3], 64) == pt
  }

  lemma EncodeUtf8Is(pt: nat)
    requires pt < 0x11_0000
    ensures Utf8Of(EncodeUtf8(pt), pt)
  {
    var a, b, c := pt / 0x40, pt / 0x1000, pt / 0x4_0000;
    SplitSix(pt);
    SplitSix(a);
    SplitSix(b);
    assert a / 0x40 == b && b / 0x40 == c;
    Marked(pt % 0x40);
    Marked(a % 0x40);
    Marked(b % 0x40);
  }

  lemma SplitSix(n: nat)
    ensures n == n / 0x40 * 0x40 + n % 0x40
  {
  }

  lemma Marked(n: nat)
    requires n < 0x40
    ensures (n + 0x80) / 64 == 2 && Below(n + 0x80, 64) == n
  {
  }

  /* Objects */

  /** Equal up to byte `k`, where the one ends and the other does not, or has the smaller byte. */
  predicate SmallerAt(a: Text, b: Text, k: nat) {
    k <= |a| && k < |b| && a[..k] == b[..k] && (k < |a| ==> a[k] < b[k])
  }

  lemma {:induction false} BeforeIs(a: Text, b: Text)
    ensures Before(a, b) <==> exists k: nat :: SmallerAt(a, b, k)
    decreases |a|
  {
    if a == [] || b == [] || a[0] != b[0] {
      assert SmallerAt(a, b, 0) <==> Before(a, b);
      forall k: nat | 0 < k <= |a| && k <= |b| ensures a[..k] != b[..k] {
        assert a[..k][0] == a[0] && b[..k][0] == b[0];
      }
    } else {
      BeforeIs(a[1..], b[1..]);
      forall k: nat ensures SmallerAt(a, b, k + 1) <==> SmallerAt(a[1..], b[1..], k) {
        OneMore(a, b, k);
      }
      if k: nat :| SmallerAt(a[1..], b[1..], k) { assert SmallerAt(a, b, k + 1); }
      if k: nat :| SmallerAt(a, b, k) { assert k > 0 && SmallerAt(a[1..], b[1..], k - 1); }
    }
  }

  lemma OneMore(a: Text, b: Text, k: nat)
    requires a != [] && b != [] && a[0] == b[0]
    ensures SmallerAt(a, b, k + 1) <==> SmallerAt(a[1..], b[1..], k)
  {
    if k < |a| && k < |b| {
      assert a[..k + 1] == [a[0]] + a[1..][..k] && b[..k + 1] == [b[0]] + b[1..][..k];
      assert a[1..][..k] == a[..k + 1][1..] && b[1..][..k] == b[..k + 1][1..];
    }
  }

  lemma {:induction false} BeforeTransitive(a: Text, b: Text, c: Text)
    requires Before(a, b) && Before(b, c)
    ensures Before(a, c)
    decreases |a|
  {
    if a != [] && a[0] == b[0] == c[0] {
      BeforeTransitive(a[1..], b[1..], c[1..]);
    }
  }

  lemma {:induction false} BeforeTotal(a: Text, b: Text)
    ensures a == b || Before(a, b) || Before(b, a)
    decreases |a|
  {
    if a != [] && b != [] && a[0] == b[0] {
      BeforeTotal(a[1..], b[1..]);
      assert a == [a[0]] + a[1..] && b == [b[0]] + b[1..];
    }
  }

  /** What the entries of an object map each key to. */
  function FieldMap(fields: seq<Field>): map<Text, Json> {
    if fields == [] then map[] else FieldMap(fields[1..])[fields[0].key := fields[0].value]
  }

  /** The entries before the key, the new one, and the entries behind the key. */
  predicate Placed(fields: seq<Field>, key: Text, value: Json, n: nat, m: nat) {
    && n <= m <= |fields| && (m == n || (m == n + 1 && fields[n].key == key))
    && (forall k :: 0 <= k < n ==> Before(fields[k].key, key))
    && (forall k :: m <= k < |fields| ==> Before(key, fields[k].key))
    && Assign(fields, key, value) == fields[..n] + [Field(key, value)] + fields[m..]
  }

  lemma {:induction false} AssignPlaces(fields: seq<Field>, key: Text, value: Json) returns (n: nat, m: nat)
    requires Sorted(fields)
    ensures Placed(fields, key, value, n, m)
    decreases |fields|
  {
    if fields == [] {
      n, m := 0, 0;
    } else if fields[0].key == key {
      n, m := 0, 1;
    } else if Before(key, fields[0].key) {
      n, m := 0, 0;
      forall k | 0 < k < |fields| ensures Before(key, fields[k].key) {
        BeforeTransitive(key, fields[0].key, fields[k].key);
      }
    } else {
      n, m := AssignPlaces(fields[1..], key, value);
      BeforeTotal(key, fields[0].key);
      PlacedBehind(fields, key, value, n, m);
      n, m := n + 1, m + 1;
    }
  }

  lemma PlacedBehind(fields: seq<Field>, key: Text, value: Json, n: nat, m: nat)
    requires fields != [] && Placed(fields[1..], key, value, n, m) && Before(fields[0].key, key)
    requires fields[0].key != key && !Before(key, fields[0].key)
    ensures Placed(fields, key, value, n + 1, m + 1)
  {
    hide Before;
    var rest := fields[1..];
    assert forall k :: 0 < k < |fields| ==> fields[k] == rest[k - 1];
    assert [fields[0]] + (rest[..n] + [Field(key, value)] + rest[m..])
        == fields[..n + 1] + [Field(key, value)] + fields[m + 1..];
  }

  /** `data[key] = value` keeps the entries in the order of their keys, and changes what the key is mapped to and
      nothing else. */
  lemma {:induction false} AssignIs(fields: seq<Field>, key: Text, value: Json)
    requires Sorted(fields)
    ensures Sorted(Assign(fields, key, value))
    ensures FieldMap(Assign(fields, key, value)) == FieldMap(fields)[key := value]
  {
    hide Before, Assign;
    var n, m := AssignPlaces(fields, key, value);
    var r := Assign(fields, key, value);
    forall i, j | 0 <= i < j < |r| ensures Before(r[i].key, r[j].key) {
      if i < n < j {
        BeforeTransitive(r[i].key, key, r[j].key);
      }
    }
    AssignMaps(fields, key, value);
  }

  lemma {:induction false} AssignMaps(fields: seq<Field>, key: Text, value: Json)
    ensures FieldMap(Assign(fields, key, value)) == FieldMap(fields)[key := value]
    decreases |fields|
  {
    hide Before;
    var r := Assign(fields, key, value);
    if fields == [] {
      assert r[1..] == [];
    } else if fields[0].key == key {
      assert r[1..] == fields[1..];
    } else if Before(key, fields[0].key) {
      assert r[1..] == fields;
    } else {
      AssignMaps(fields[1..], key, value);
      assert r[1..] == Assign(fields[1..], key, value);
    }
  }

  /** The members of an object, the last one of each key. */
  function MembersMap(members: Members, done: map<Text, Json>): map<Text, Json>
    decreases members
  {
    var m := members.member;
    var next := done[CharsValue(m.key) := TreeValue(m.slot.value)];
    if members.LastMember? then next else MembersMap(members.rest, next)
  }

  /** The object that the parser builds maps every key to the value of the last member that has it. */
  lemma {:induction false} MembersAreMap(members: Members, done: seq<Field>)
    requires Sorted(done)
    ensures Sorted(MembersValue(members, done))
    ensures FieldMap(MembersValue(members, done)) == MembersMap(members, FieldMap(done))
    decreases members
  {
    hide Sorted, FieldMap, Assign, CharsValue, TreeValue;
    var m := members.member;
    AssignIs(done, CharsValue(m.key), TreeValue(m.slot.value));
    if members.MoreMembers? {
      MembersAreMap(members.rest, Assign(done, CharsValue(m.key), TreeValue(m.slot.value)));
    }
  }
}
