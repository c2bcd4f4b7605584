/** The texts of RFC 8259, written down as trees that say what each byte is for, with the comments that json11
    allows between tokens. Nothing here depends on how the parser recognises anything. */
module JsonSyntax {
  import opened BitStrings
  import opened HexDigits
  import opened JsonValues
  import opened JsonGrammar

  /* Between tokens */

  /** What stands between two slashes and the end of the line, or between the ends of a block. */
  datatype Comment = Line(body: Text) | Block(body: Text)

  datatype Gap = Blanks(blanks: Text) | Remark(blanks: Text, comment: Comment, rest: Gap)

  /** Space, tab, line feed or carriage return. */
  predicate AllBlank(text: Text) {
    forall k :: 0 <= k < |text| ==> text[k] == 32 || text[k] == 9 || text[k] == 10 || text[k] == 13
  }

  /** A line comment goes on to a line feed, which it does not hold, or to the end of the input; a block does not
      hold its end. */
  predicate CommentFits(c: Comment, rest: Gap, atEnd: bool) {
    match c
    case Line(body) =>
      && (forall k :: 0 <= k < |body| ==> body[k] != 10)
      && (if rest.blanks != [] then rest.blanks[0] == 10 else rest.Blanks? && atEnd)
    case Block(body) => forall k :: 0 <= k < |body| - 1 ==> !(body[k] == 42 && body[k + 1] == 47)
  }

  /** `atEnd`: nothing follows. */
  predicate GapFits(g: Gap, comments: bool, atEnd: bool) {
    && AllBlank(g.blanks)
    && (g.Remark? ==> comments && CommentFits(g.comment, g.rest, atEnd) && GapFits(g.rest, comments, atEnd))
  }

  function CommentText(c: Comment): Text {
    match c
    case Line(body) => [47, 47] + body
    case Block(body) => [47, 42] + body + [42, 47]
  }

  function GapText(g: Gap): Text {
    match g
    case Blanks(blanks) => blanks
    case Remark(blanks, comment, rest) => blanks + CommentText(comment) + GapText(rest)
  }

  /* Strings */

  type Letter = k: nat | k < 8

  /** A byte as it is, an escape of one letter, or a code unit in four hexadecimal digits. */
  datatype Char = Raw(b: Byte) | Short(k: Letter) | Unit(a: Hex, b': Hex, c: Hex, d: Hex)

  /** The letters behind the backslash: quote, backslash, slash, b, f, n, r, t. */
  const LETTERS: Text := [34, 92, 47, 98, 102, 110, 114, 116]

  /** What they stand for: quote, backslash, slash, backspace, form feed, line feed, carriage return, tab. */
  const MEANINGS: Text := [34, 92, 47, 8, 12, 10, 13, 9]

  predicate CharFits(c: Char) {
    match c
    case Raw(b) => b >= 32 && b != 34 && b != 92
    case _ => true
  }

  predicate CharsFit(cs: seq<Char>) {
    forall k :: 0 <= k < |cs| ==> CharFits(cs[k])
  }

  function CharText(c: Char): (r: Text)
    ensures r != []
  {
    match c
    case Raw(b) => [b]
    case Short(k) => [92, LETTERS[k]]
    case Unit(a, b', c, d) => [92, 117, HexByte(a), HexByte(b'), HexByte(c), HexByte(d)]
  }

  function CharsText(cs: seq<Char>): Text
  {
    if cs == [] then [] else CharText(cs[0]) + CharsText(cs[1..])
  }

  function UnitValue(c: Char): nat
    requires c.Unit?
  {
    ((c.a.value * 16 + c.b'.value) * 16 + c.c.value) * 16 + c.d.value
  }

  /** The bytes of a string; code units come out in UTF-8, two that make up a surrogate pair as one code point. */
  function CharsValue(cs: seq<Char>): Text
    decreases |cs|, 1
  {
    if cs == [] then [] else
    match cs[0]
    case Raw(b) => [b] + CharsValue(cs[1..])
    case Short(k) => [MEANINGS[k]] + CharsValue(cs[1..])
    case Unit(_, _, _, _) => UnitThen(UnitValue(cs[0]), cs[1..])
  }

  function UnitThen(unit: nat, cs: seq<Char>): Text
    decreases |cs|, 2
  {
    if 0xD800 <= unit < 0xDC00 && cs != [] && cs[0].Unit? && 0xDC00 <= UnitValue(cs[0]) < 0xE000
    then EncodeUtf8(0x1_0000 + (unit - 0xD800) * 0x400 + (UnitValue(cs[0]) - 0xDC00)) + CharsValue(cs[1..])
    else EncodeUtf8(unit) + CharsValue(cs)
  }

  function StringText(cs: seq<Char>): Text
  {
    [34] + CharsText(cs) + [34]
  }

  /* Numbers */

  type Figure = n: nat | n < 10

  datatype Sign = NoSign | Plus | Minus

  datatype Exponent = Exponent(upper: bool, sign: Sign, figures: seq<Figure>)

  /** No figures in the fraction stand for no fraction. */
  datatype Number = Number(minus: bool, whole: seq<Figure>, fraction: seq<Figure>, exponent: Option<Exponent>)

  predicate NumberFits(n: Number) {
    && n.whole != [] && (n.whole[0] == 0 ==> |n.whole| == 1)
    && (n.exponent.Some? ==> n.exponent.value.figures != [])
  }

  /** Byte n of "0123456789". */
  function FigureByte(f: Figure): Byte {
    [48, 49, 50, 51, 52, 53, 54, 55, 56, 57][f]
  }

  function FiguresText(figures: seq<Figure>): (r: Text)
    ensures |r| == |figures|
  {
    if figures == [] then [] else [FigureByte(figures[0])] + FiguresText(figures[1..])
  }

  function FiguresValue(figures: seq<Figure>): nat {
    if figures == [] then 0 else FiguresValue(figures[..|figures| - 1]) * 10 + figures[|figures| - 1]
  }

  function WholeText(n: Number): Text {
    (if n.minus then [45] else []) + FiguresText(n.whole)
  }

  function FractionText(n: Number): Text {
    if n.fraction == [] then [] else [46] + FiguresText(n.fraction)
  }

  function SignText(sign: Sign): Text {
    match sign
    case NoSign => []
    case Plus => [43]
    case Minus => [45]
  }

  function ExponentText(n: Number): Text {
    match n.exponent
    case None => []
    case Some(e) => [if e.upper then 69 else 101] + SignText(e.sign) + FiguresText(e.figures)
  }

  function NumberText(n: Number): Text {
    WholeText(n) + FractionText(n) + ExponentText(n)
  }

  /** An int if it has neither fraction nor exponent and is at most nine bytes long. */
  function NumberValue(n: Number): Json {
    if n.fraction != [] || n.exponent.Some? || |WholeText(n)| > 9 then Double(NumberText(n))
    else if n.minus then Int(0 - FiguresValue(n.whole) as int)
    else Int(FiguresValue(n.whole))
  }

  /* Values */

  datatype Tree = NullTree | BoolTree(b: bool) | NumberTree(number: Number) | StringTree(chars: seq<Char>)
                | EmptyArray(gap: Gap) | ArrayTree(slots: Slots)
                | EmptyObject(gap: Gap) | ObjectTree(members: Members)

  /** A value with what stands around it. */
  datatype Slot = Slot(before: Gap, value: Tree, after: Gap)

  datatype Slots = LastSlot(slot: Slot) | MoreSlots(slot: Slot, rest: Slots)

  datatype Member = Member(before: Gap, key: seq<Char>, after: Gap, slot: Slot)

  datatype Members = LastMember(member: Member) | MoreMembers(member: Member, rest: Members)

  predicate Fits(t: Tree, comments: bool)
    decreases t
  {
    match t
    case NumberTree(number) => NumberFits(number)
    case StringTree(chars) => CharsFit(chars)
    case EmptyArray(gap) => GapFits(gap, comments, false)
    case ArrayTree(slots) => SlotsFit(slots, comments)
    case EmptyObject(gap) => GapFits(gap, comments, false)
    case ObjectTree(members) => MembersFit(members, comments)
    case _ => true
  }

  predicate SlotFits(x: Slot, comments: bool)
    decreases x
  {
    GapFits(x.before, comments, false) && Fits(x.value, comments) && GapFits(x.after, comments, false)
  }

  predicate SlotsFit(slots: Slots, comments: bool)
    decreases slots
  {
    SlotFits(slots.slot, comments) && (slots.MoreSlots? ==> SlotsFit(slots.rest, comments))
  }

  predicate MemberFits(m: Member, comments: bool)
    decreases m
  {
    && GapFits(m.before, comments, false) && CharsFit(m.key) && GapFits(m.after, comments, false)
    && SlotFits(m.slot, comments)
  }

  predicate MembersFit(members: Members, comments: bool)
    decreases members
  {
    MemberFits(members.member, comments) && (members.MoreMembers? ==> MembersFit(members.rest, comments))
  }

  function TreeText(t: Tree): Text
    decreases t
  {
    match t
    case NullTree => [110, 117, 108, 108]
    case BoolTree(b) => if b then [116, 114, 117, 101] else [102, 97, 108, 115, 101]
    case NumberTree(number) => NumberText(number)
    case StringTree(chars) => StringText(chars)
    case EmptyArray(gap) => [91] + GapText(gap) + [93]
    case ArrayTree(slots) => [91] + SlotsText(slots) + [93]
    case EmptyObject(gap) => [123] + GapText(gap) + [125]
    case ObjectTree(members) => [123] + MembersText(members) + [125]
  }

  function SlotText(x: Slot): Text
    decreases x
  {
    GapText(x.before) + TreeText(x.value) + GapText(x.after)
  }

  function SlotsText(slots: Slots): Text
    decreases slots
  {
    match slots
    case LastSlot(slot) => SlotText(slot)
    case MoreSlots(slot, rest) => SlotText(slot) + [44] + SlotsText(rest)
  }

  function MemberText(m: Member): Text
    decreases m
  {
    GapText(m.before) + StringText(m.key) + GapText(m.after) + [58] + SlotText(m.slot)
  }

  function MembersText(members: Members): Text
    decreases members
  {
    match members
    case LastMember(member) => MemberText(member)
    case MoreMembers(member, rest) => MemberText(member) + [44] + MembersText(rest)
  }

  function TreeValue(t: Tree): Json
    decreases t
  {
    match t
    case NullTree => Null
    case BoolTree(b) => Bool(b)
    case NumberTree(number) => NumberValue(number)
    case StringTree(chars) => Str(CharsValue(chars))
    case EmptyArray(gap) => Array([])
    case ArrayTree(slots) => Array(SlotsValues(slots))
    case EmptyObject(gap) => Object([])
    case ObjectTree(members) => Object(MembersValue(members, []))
  }

  function SlotsValues(slots: Slots): seq<Json>
    decreases slots
  {
    var first := [TreeValue(slots.slot.value)];
    if slots.LastSlot? then first else first + SlotsValues(slots.rest)
  }

  /** The members one after the other, put into the map. */
  function MembersValue(members: Members, done: seq<Field>): seq<Field>
    decreases members
  {
    var m := members.member;
    var next := Assign(done, CharsValue(m.key), TreeValue(m.slot.value));
    if members.LastMember? then next else MembersValue(members.rest, next)
  }

  /** How many arrays and objects that hold something stand around the innermost value. */
  function Depth(t: Tree): nat
    decreases t
  {
    match t
    case ArrayTree(slots) => 1 + SlotsDepth(slots)
    case ObjectTree(members) => 1 + MembersDepth(members)
    case _ => 0
  }

  function SlotsDepth(slots: Slots): nat
    decreases slots
  {
    var d := Depth(slots.slot.value);
    if slots.LastSlot? then d else
    var more := SlotsDepth(slots.rest);
    if d < more then more else d
  }

  function MembersDepth(members: Members): nat
    decreases members
  {
    var d := Depth(members.member.slot.value);
    if members.LastMember? then d else
    var more := MembersDepth(members.rest);
    if d < more then more else d
  }

  /** A whole text: one value, and what stands around it. */
  predicate TextFits(x: Slot, comments: bool) {
    GapFits(x.before, comments, false) && Fits(x.value, comments) && GapFits(x.after, comments, true)
  }
}
