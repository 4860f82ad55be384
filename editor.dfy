/**
  The state-keeping parts of the wx.metadata editor: the cursor that walks
  the template's item list, the cleaning of a control's value, the name and
  path of the exported XML file, the sizer positions of a notebook page,
  and the flags of a metadata item and of a box of items.
 */
module MetadataEditor {
  import opened Wrappers

  // ---------------------------------------------------------------------------
  // The cursor over the template items (MdMainEditor.c, .stop, .max)

  /** The cursor of the GUI generator: index c into the template items, the stop flag, and the number of items. */
  datatype CursorState = CursorState(c: int, stop: bool, max: int)

  /** plusC: advance by num (1 when omitted); on reaching max, step back one and stop. */
  function Plus(s: CursorState, num: Option<int>): CursorState
  {
    var n := if num.None? then 1 else num.value;
    if s.c + n >= s.max then CursorState(s.c + n - 1, true, s.max)
    else CursorState(s.c + n, s.stop, s.max)
  }

  /** minusC: go back by num (1 when omitted); the stop flag is cleared whenever the new index is at most max. */
  function Minus(s: CursorState, num: Option<int>): CursorState
  {
    var n := if num.None? then 1 else num.value;
    CursorState(s.c - n, if s.c - n <= s.max then false else s.stop, s.max)
  }

  class Cursor {
    var c: int
    var stop: bool
    var max: int

    function State(): CursorState
      reads this
    {
      CursorState(c, stop, max)
    }

    /** The set-up before the generator loop: index 0, not stopped, max the number of template items. */
    constructor (items: nat)
      ensures State() == CursorState(0, false, items)
    {
      c := 0;
      stop := false;
      max := items;
    }

    method PlusC(num: Option<int>)
      modifies this
      ensures State() == Plus(old(State()), num)
    {
      var n := if num.None? then 1 else num.value;
      c := c + n;
      if c >= max {
        c := c - 1;
        stop := true;
      }
    }

    method MinusC(num: Option<int>)
      modifies this
      ensures State() == Minus(old(State()), num)
    {
      var n := if num.None? then 1 else num.value;
      c := c - n;
      if c <= max {
        stop := false;
      }
    }
  }

  /** A step of one from an index below max stays below max, and stops exactly when it started on the last item. */
  lemma PlusOneInRange(s: CursorState)
    requires 0 <= s.c < s.max
    ensures var t := Plus(s, Some(1));
            && 0 <= t.c < t.max && t.max == s.max
            && (t.stop <==> s.stop || s.c == s.max - 1)
            && (s.c < s.max - 1 ==> t.c == s.c + 1)
  {
  }

  /** k steps of one from the start. */
  function Steps(s: CursorState, k: nat): CursorState
  {
    if k == 0 then s else Plus(Steps(s, k - 1), Some(1))
  }

  /**
    Walking a list of max >= 1 items one step at a time from the start visits
    index k after k steps, without stopping, until the last item; the step
    from the last item stops the walk and leaves the index on that item.
   */
  lemma {:induction false} WalkVisitsEachItem(max: int, k: nat)
    requires 1 <= max && k <= max
    ensures Steps(CursorState(0, false, max), k) ==
              if k < max then CursorState(k, false, max) else CursorState(max - 1, true, max)
  {
    if k > 0 {
      WalkVisitsEachItem(max, k - 1);
    }
  }

  /** Going back by what was just added undoes a step that did not reach max, stop flag included when it was clear. */
  lemma MinusUndoesPlus(s: CursorState, n: int)
    requires s.c + n < s.max && !s.stop
    ensures Minus(Plus(s, Some(n)), Some(n)) == s
  {
  }

  /** Going back by one from a stopped walk clears the stop flag. */
  lemma MinusResumes(s: CursorState)
    requires s.c < s.max
    ensures var t := Minus(s, None); !t.stop && t.c == s.c - 1
  {
  }

  // ---------------------------------------------------------------------------
  // Cleaning a control's value (MdItem.getValue)

  /** `str.replace(ch, '')`: every occurrence of ch removed. */
  function Remove(s: string, ch: char): (r: string)
    ensures ch !in r && |r| <= |s|
  {
    if s == [] then []
    else (if s[0] == ch then [] else [s[0]]) + Remove(s[1..], ch)
  }

  /** The characters getValue drops: newline, double quote and single quote. */
  const Dropped: set<char> := {'\n', '"', '\''}

  /** The characters of s outside drop, in their order. */
  function KeepOthers(s: string, drop: set<char>): string
  {
    if s == [] then []
    else (if s[0] in drop then [] else [s[0]]) + KeepOthers(s[1..], drop)
  }

  lemma {:induction false} RemoveConcat(u: string, v: string, ch: char)
    ensures Remove(u + v, ch) == Remove(u, ch) + Remove(v, ch)
  {
    if u != [] {
      assert (u + v)[1..] == u[1..] + v;
      RemoveConcat(u[1..], v, ch);
    } else {
      assert u + v == v;
    }
  }

  lemma {:induction false} KeepOthersAvoids(s: string, drop: set<char>)
    ensures forall c :: c in KeepOthers(s, drop) ==> c in s && c !in drop
  {
    if s != [] {
      KeepOthersAvoids(s[1..], drop);
    }
  }

  /** Removing the three dropped characters one after the other keeps exactly the other characters, in order. */
  lemma {:induction false} CleanedKeepsOthers(s: string)
    ensures Remove(Remove(Remove(s, '\n'), '"'), '\'') == KeepOthers(s, Dropped)
  {
    if s != [] {
      CleanedKeepsOthers(s[1..]);
      var h := if s[0] == '\n' then [] else [s[0]];
      var t := Remove(s[1..], '\n');
      assert Remove(s, '\n') == h + t;
      RemoveConcat(h, t, '"');
      var h2 := Remove(h, '"');
      var t2 := Remove(t, '"');
      RemoveConcat(h2, t2, '\'');
      assert Remove(h2, '\'') == if s[0] in Dropped then [] else [s[0]];
    }
  }

  // ---------------------------------------------------------------------------
  // The exported file's name and path (MdFileWork.saveToXML)

  /** Python's `str.lower()` on one character, for the ASCII letters. */
  function LowerChar(ch: char): char
  {
    if 'A' <= ch <= 'Z' then (ch as int + 32) as char else ch
  }

  /** Python's `str.lower()` on the ASCII letters. */
  function Lower(s: string): (r: string)
    ensures |r| == |s|
  {
    if s == [] then [] else [LowerChar(s[0])] + Lower(s[1..])
  }

  lemma {:induction false} LowerAt(s: string, i: nat)
    requires i < |s|
    ensures Lower(s)[i] == LowerChar(s[i])
  {
    if i > 0 {
      LowerAt(s[1..], i - 1);
    }
  }

  predicate EndsWith(s: string, suffix: string)
  {
    |suffix| <= |s| && s[|s| - |suffix|..] == suffix
  }

  const DefaultName: string := "RANDExportMD"
  const XmlSuffix: string := ".xml"

  /** The exported file's name: the given name or RANDExportMD, with `.xml` appended unless it already ends so in any case. */
  function OutputName(xmlOutName: Option<string>): string
  {
    var name := if xmlOutName.None? then DefaultName else xmlOutName.value;
    if EndsWith(Lower(name), XmlSuffix) then name else name + XmlSuffix
  }

  /** `os.path.join(a, b)` on POSIX: b alone when it is absolute, otherwise b after a and a separator unless a is empty or ends in one. */
  function Join(a: string, b: string): string
  {
    if |b| > 0 && b[0] == '/' then b
    else if a == [] || a[|a| - 1] == '/' then a + b
    else a + "/" + b
  }

  /** The exported file's path: the name joined to the output directory, or to the module's directory when none (or an empty one) is given. */
  function OutputPath(outPath: Option<string>, moduleDir: string, name: string): string
  {
    Join(if outPath.None? || outPath.value == [] then moduleDir else outPath.value, name)
  }

  lemma {:induction false} LowerConcat(u: string, v: string)
    ensures Lower(u + v) == Lower(u) + Lower(v)
  {
    if u != [] {
      assert (u + v)[1..] == u[1..] + v;
      LowerConcat(u[1..], v);
    } else {
      assert u + v == v;
    }
  }

  lemma EndsWithConcat(u: string, v: string)
    ensures EndsWith(u + v, v)
  {
    assert (u + v)[|u + v| - |v|..] == v;
  }

  /** The name made from a given name ends in `.xml` in some case. */
  lemma GivenNameIsXml(name: string)
    ensures EndsWith(Lower(OutputName(Some(name))), XmlSuffix)
  {
    if !EndsWith(Lower(name), XmlSuffix) {
      LowerConcat(name, XmlSuffix);
      LowerXml();
      EndsWithConcat(Lower(name), XmlSuffix);
    }
  }

  /** Without a name the file is RANDExportMD with `.xml` appended. */
  lemma DefaultOutputName()
    ensures OutputName(None) == DefaultName + XmlSuffix
  {
    DefaultNotXml();
  }

  /** The name always ends in `.xml` in some case. */
  lemma NameIsXml(xmlOutName: Option<string>)
    ensures EndsWith(Lower(OutputName(xmlOutName)), XmlSuffix)
  {
    var name := if xmlOutName.None? then DefaultName else xmlOutName.value;
    assert OutputName(xmlOutName) == OutputName(Some(name));
    GivenNameIsXml(name);
  }

  lemma LowerXml()
    ensures Lower(XmlSuffix) == XmlSuffix
  {
    forall i | 0 <= i < 4
      ensures Lower(XmlSuffix)[i] == XmlSuffix[i]
    {
      LowerAt(XmlSuffix, i);
    }
  }

  lemma DefaultNotXml()
    ensures !EndsWith(Lower(DefaultName), XmlSuffix)
  {
    LowerAt(DefaultName, 8);
    assert Lower(DefaultName)[8] == 'r';
    assert Lower(DefaultName)[|DefaultName| - 4..][0] == Lower(DefaultName)[8];
  }

  /** `.xml` is not appended a second time: naming a name already made is the identity. */
  lemma NameIdempotent(xmlOutName: Option<string>)
    ensures OutputName(Some(OutputName(xmlOutName))) == OutputName(xmlOutName)
  {
    NameIsXml(xmlOutName);
  }

  /** A name ending in `.xml` in any case is kept as given; any other gets exactly `.xml` appended. */
  lemma NameKeepsGivenName(name: string)
    ensures EndsWith(Lower(name), XmlSuffix) <==> OutputName(Some(name)) == name
    ensures !EndsWith(Lower(name), XmlSuffix) <==> OutputName(Some(name)) == name + XmlSuffix
  {
  }

  /** The path ends in the name, and a relative name goes under the chosen directory. */
  lemma PathEndsInName(outPath: Option<string>, moduleDir: string, name: string)
    ensures EndsWith(OutputPath(outPath, moduleDir, name), name)
    ensures var dir := if outPath.None? || outPath.value == [] then moduleDir else outPath.value;
            (|name| == 0 || name[0] != '/') ==> dir <= OutputPath(outPath, moduleDir, name)
  {
    var dir := if outPath.None? || outPath.value == [] then moduleDir else outPath.value;
    if |name| > 0 && name[0] == '/' {
      assert EndsWith(name, name) by { assert name[0..] == name; }
    } else if dir == [] || dir[|dir| - 1] == '/' {
      EndsWithConcat(dir, name);
    } else {
      assert dir + "/" + name == dir + ("/" + name);
      EndsWithConcat(dir + "/", name);
    }
  }

  /** A string ending in a name whose lower-case form ends in `.xml` has a lower-case form ending in `.xml`. */
  lemma LowerSuffix(path: string, name: string)
    requires EndsWith(path, name) && EndsWith(Lower(name), XmlSuffix)
    ensures EndsWith(Lower(path), XmlSuffix)
  {
    var pre := path[..|path| - |name|];
    assert path == pre + name;
    LowerConcat(pre, name);
    var ln := Lower(name);
    var lp := Lower(pre) + ln;
    assert lp[|lp| - 4..] == ln[|ln| - 4..];
  }

  /** The exported path always ends in `.xml` in some case. */
  lemma PathIsXml(outPath: Option<string>, moduleDir: string, xmlOutName: Option<string>)
    ensures EndsWith(Lower(OutputPath(outPath, moduleDir, OutputName(xmlOutName))), XmlSuffix)
  {
    var name := OutputName(xmlOutName);
    NameIsXml(xmlOutName);
    PathEndsInName(outPath, moduleDir, name);
    LowerSuffix(OutputPath(outPath, moduleDir, name), name);
  }

  // ---------------------------------------------------------------------------
  // Sizer positions on a notebook page (MdNotebookPage)

  /** A control placed on a page, known by its wx id. */
  datatype Widget = Widget(ctrlId: int)

  /** An element of the list addItem is given: a control, or a list of controls. */
  datatype Entry = Single(w: Widget) | Nested(ws: seq<Widget>)

  /** What addItem is given: one control, or a list of entries. */
  datatype AddArg = One(w: Widget) | Many(entries: seq<Entry>)

  function EntryWidgets(e: Entry): seq<Widget>
  {
    match e
    case Single(w) => [w]
    case Nested(ws) => ws
  }

  /** The controls of an outer list whose elements are controls or lists of controls, in order. */
  function FlattenEntries(es: seq<Entry>): seq<Widget>
  {
    if es == [] then [] else FlattenEntries(es[..|es| - 1]) + EntryWidgets(es[|es| - 1])
  }

  /** The controls addItem places, in the order it places them. */
  function Flatten(arg: AddArg): seq<Widget>
  {
    match arg
    case One(w) => [w]
    case Many(es) => FlattenEntries(es)
  }

  /** The index dictionary after the controls ws received the indices start + 1, start + 2, ... in order, a later control overwriting an earlier one with the same id. */
  function Assign(dict: map<int, int>, ws: seq<Widget>, start: int): map<int, int>
  {
    if ws == [] then dict
    else Assign(dict, ws[..|ws| - 1], start)[ws[|ws| - 1].ctrlId := start + |ws|]
  }

  /** The ids of ws are pairwise distinct. */
  predicate DistinctIds(ws: seq<Widget>)
  {
    forall i, j :: 0 <= i < j < |ws| ==> ws[i].ctrlId != ws[j].ctrlId
  }

  /**
    With distinct ids, the k-th control placed gets index start + k + 1, so
    the indices are fresh (above start) and strictly increase in insertion
    order; an id not among the controls keeps its entry.
   */
  lemma {:induction false} AssignIndices(dict: map<int, int>, ws: seq<Widget>, start: int)
    requires DistinctIds(ws)
    ensures forall k :: 0 <= k < |ws| ==> ws[k].ctrlId in Assign(dict, ws, start) && Assign(dict, ws, start)[ws[k].ctrlId] == start + k + 1
    ensures forall id :: (forall k :: 0 <= k < |ws| ==> ws[k].ctrlId != id) ==>
              (id in Assign(dict, ws, start) <==> id in dict) && (id in dict ==> Assign(dict, ws, start)[id] == dict[id])
  {
    if ws != [] {
      var init := ws[..|ws| - 1];
      assert forall k :: 0 <= k < |init| ==> init[k] == ws[k];
      AssignIndices(dict, init, start);
    }
  }

  class NotebookPage {
    /** The last index handed out. */
    var sizerIndex: int
    /** The index of each placed control, by wx id. */
    var sizerIndexDict: map<int, int>
    /** The controls of the page's main sizer, in the order they were added. */
    var sizer: seq<Widget>

    constructor ()
      ensures sizerIndex == 0 && sizerIndexDict == map[] && sizer == []
    {
      sizerIndex := 0;
      sizerIndexDict := map[];
      sizer := [];
    }

    /** _getIndex: the next index, 1 more than the last. */
    method GetIndex() returns (r: int)
      modifies this
      ensures sizerIndex == old(sizerIndex) + 1 && r == sizerIndex
      ensures sizerIndexDict == old(sizerIndexDict) && sizer == old(sizer)
    {
      sizerIndex := sizerIndex + 1;
      r := sizerIndex;
    }

    /** One control: record its index and add it to the sizer. */
    method Place(w: Widget)
      modifies this
      ensures sizerIndex == old(sizerIndex) + 1
      ensures sizerIndexDict == old(sizerIndexDict)[w.ctrlId := sizerIndex]
      ensures sizer == old(sizer) + [w]
    {
      var index := GetIndex();
      sizerIndexDict := sizerIndexDict[w.ctrlId := index];
      sizer := sizer + [w];
    }

    /** The controls of one nested list, each placed in turn. */
    method PlaceAll(ws: seq<Widget>)
      modifies this
      ensures sizer == old(sizer) + ws
      ensures sizerIndex == old(sizerIndex) + |ws|
      ensures sizerIndexDict == Assign(old(sizerIndexDict), ws, old(sizerIndex))
    {
      var j := 0;
      while j < |ws|
        invariant 0 <= j <= |ws|
        invariant sizer == old(sizer) + ws[..j]
        invariant sizerIndex == old(sizerIndex) + j
        invariant sizerIndexDict == Assign(old(sizerIndexDict), ws[..j], old(sizerIndex))
      {
        Place(ws[j]);
        assert ws[..j + 1][..j] == ws[..j];
        assert ws[..j + 1] == ws[..j] + [ws[j]];
        j := j + 1;
      }
      assert ws[..|ws|] == ws;
    }

    /** addItem: a single control, or every control of an outer list whose elements are controls or lists of controls, gets the next index and joins the sizer, in order. */
    method AddItem(arg: AddArg)
      modifies this
      ensures sizer == old(sizer) + Flatten(arg)
      ensures sizerIndex == old(sizerIndex) + |Flatten(arg)|
      ensures sizerIndexDict == Assign(old(sizerIndexDict), Flatten(arg), old(sizerIndex))
    {
      match arg {
        case One(w) =>
          Place(w);
          assert [w][..0] == [];
        case Many(es) =>
          PlaceEntries(es);
      }
    }

    /** The entries of a list in order, a nested list's controls one after another. */
    method PlaceEntries(es: seq<Entry>)
      modifies this
      ensures sizer == old(sizer) + FlattenEntries(es)
      ensures sizerIndex == old(sizerIndex) + |FlattenEntries(es)|
      ensures sizerIndexDict == Assign(old(sizerIndexDict), FlattenEntries(es), old(sizerIndex))
    {
      ghost var dict0 := sizerIndexDict;
      ghost var start := sizerIndex;
      var i := 0;
      while i < |es|
        invariant 0 <= i <= |es|
        invariant sizer == old(sizer) + FlattenEntries(es[..i])
        invariant sizerIndex == start + |FlattenEntries(es[..i])|
        invariant sizerIndexDict == Assign(dict0, FlattenEntries(es[..i]), start)
      {
        ghost var done := FlattenEntries(es[..i]);
        FlattenStep(es, i);
        PlaceEntry(es[i]);
        AssignConcat(dict0, done, EntryWidgets(es[i]), start);
        i := i + 1;
      }
      assert es[..|es|] == es;
    }

    /** One entry of the list: a control, or each control of a nested list. */
    method PlaceEntry(e: Entry)
      modifies this
      ensures sizer == old(sizer) + EntryWidgets(e)
      ensures sizerIndex == old(sizerIndex) + |EntryWidgets(e)|
      ensures sizerIndexDict == Assign(old(sizerIndexDict), EntryWidgets(e), old(sizerIndex))
    {
      match e {
        case Single(w) =>
          Place(w);
          assert [w][..0] == [];
        case Nested(ws) =>
          PlaceAll(ws);
      }
    }
  }

  /** The controls of the first i + 1 entries are those of the first i, then those of entry i. */
  lemma FlattenStep(es: seq<Entry>, i: nat)
    requires i < |es|
    ensures FlattenEntries(es[..i + 1]) == FlattenEntries(es[..i]) + EntryWidgets(es[i])
  {
    assert es[..i + 1][..i] == es[..i];
  }

  /** Assigning two runs of controls one after the other is assigning their concatenation. */
  lemma {:induction false} AssignConcat(dict: map<int, int>, u: seq<Widget>, v: seq<Widget>, start: int)
    ensures Assign(dict, u + v, start) == Assign(Assign(dict, u, start), v, start + |u|)
  {
    if v == [] {
      assert u + v == u;
    } else {
      var v' := v[..|v| - 1];
      assert (u + v)[..|u + v| - 1] == u + v';
      AssignConcat(dict, u, v', start);
    }
  }

  // ---------------------------------------------------------------------------
  // Buttons of items and boxes

  /** Which repetition buttons a widget gets: `+` to duplicate it, `-` to remove it. */
  datatype Buttons = Buttons(add: bool, remove: bool)

  /**
    MdItem's flags: the multiplicity given, else the descriptor's; a widget
    that is not the first of its kind never gets `+`, and gets `-` when its
    descriptor allows repetition.
   */
  function ItemButtons(descMulti: bool, multiplicity: Option<bool>, rmMulti: bool, isFirstNum: int): Buttons
  {
    var multiple := if multiplicity.None? then descMulti else multiplicity.value;
    var multiple' := if isFirstNum != 1 then false else multiple;
    var rm := if isFirstNum != 1 && descMulti then true else rmMulti;
    Buttons(multiple', rm)
  }

  lemma ItemButtonPolicy(descMulti: bool, multiplicity: Option<bool>, rmMulti: bool, isFirstNum: int)
    ensures var b := ItemButtons(descMulti, multiplicity, rmMulti, isFirstNum);
            && (isFirstNum != 1 ==> !b.add && (descMulti ==> b.remove) && (b.remove <==> descMulti || rmMulti))
            && (isFirstNum == 1 ==> (b.add <==> if multiplicity.None? then descMulti else multiplicity.value) && b.remove == rmMulti)
  {
  }

  /**
    MdBox.addItems' flags: a box that is not the first of its kind gets `-`
    and no `+`; the first gets `+` unless the template said no, and `-` when
    asked.
   */
  function BoxButtons(multi: Option<bool>, rmMulti: bool, isFirstNum: int): Buttons
  {
    var multi' := if isFirstNum != 1 then Some(false) else multi;
    var rm := if isFirstNum != 1 then true else rmMulti;
    Buttons(if multi'.None? then true else multi'.value, rm)
  }

  lemma BoxButtonPolicy(multi: Option<bool>, rmMulti: bool, isFirstNum: int)
    ensures var b := BoxButtons(multi, rmMulti, isFirstNum);
            && (isFirstNum != 1 ==> !b.add && b.remove)
            && (isFirstNum == 1 && multi.None? ==> b.add)
            && (isFirstNum == 1 ==> (b.add <==> multi != Some(false)) && b.remove == rmMulti)
  {
  }

  /** What jinjainfo's MdDescription contributes to an item: whether the element may repeat. */
  datatype MdDescription = MdDescription(multiplicity: bool)

  /** The colour setValue gives the text control in the template editor. */
  datatype Background = Plain | Red | Yellow

  /** setValue's empty values: None and the empty string. */
  predicate IsEmpty(value: Option<string>)
  {
    value.None? || value.value == ""
  }

  /** A value setValue shows and counts as valid: neither empty nor the `$NULL` marker. */
  predicate IsReal(value: Option<string>)
  {
    !IsEmpty(value) && value.value != "$NULL"
  }

  /** A metadata item outside a box: its validity and check flags, its buttons, and its text control's value, state and colour. */
  class MdItem {
    var isValid: bool
    var isChecked: bool
    /** The template editor is on, so the item has a check box. */
    const chckBox: bool
    const multiple: bool
    const hasAddButton: bool
    const hasRemoveButton: bool
    /** The check box widget's value. */
    var ticked: bool
    /** The text control's value. */
    var text: string
    /** Whether the text control is enabled. */
    var enabled: bool
    var background: Background

    constructor (item: MdDescription, multiplicity: Option<bool>, rmMulti: bool, isFirstNum: int, chckBox: bool)
      ensures Buttons(hasAddButton, hasRemoveButton) == ItemButtons(item.multiplicity, multiplicity, rmMulti, isFirstNum)
      ensures multiple == hasAddButton && this.chckBox == chckBox
      ensures !isValid && !isChecked && !ticked && text == "" && enabled == !chckBox && background == Plain
    {
      var m := if multiplicity.None? then item.multiplicity else multiplicity.value;
      if isFirstNum != 1 {
        m := false;
      }
      var rm := rmMulti;
      if isFirstNum != 1 && item.multiplicity {
        rm := true;
      }
      this.chckBox := chckBox;
      multiple := m;
      hasAddButton := m;
      hasRemoveButton := rm;
      isValid := false;
      isChecked := false;
      ticked := false;
      text := "";
      enabled := !chckBox;
      background := Plain;
    }

    /** onChangeChckBox for an item outside a box: flip isChecked and enable the text control exactly when checked. */
    method OnChangeChckBox()
      modifies this
      ensures isChecked == !old(isChecked) && enabled == isChecked
      ensures isValid == old(isValid) && ticked == old(ticked) && text == old(text) && background == old(background)
    {
      if isChecked {
        enabled := false;
        isChecked := false;
      } else {
        enabled := true;
        isChecked := true;
      }
    }

    /** The double call refreshChkboxes and setValue make: isChecked is as it was, and the text control is enabled exactly when checked. */
    method Refresh()
      modifies this
      ensures isChecked == old(isChecked) && enabled == isChecked
      ensures isValid == old(isValid) && ticked == old(ticked) && text == old(text) && background == old(background)
    {
      OnChangeChckBox();
      OnChangeChckBox();
    }

    /**
      setValue: a real value is shown and makes the item valid; None, the
      empty string and `$NULL` leave the text empty, and in the template
      editor tick and check the item and colour it red (empty) or yellow
      (`$NULL`).
     */
    method SetValue(value: Option<string>)
      modifies this
      ensures isValid == (old(isValid) || IsReal(value))
      ensures text == if IsReal(value) then value.value else ""
      ensures isChecked == (if chckBox && !IsReal(value) then true else old(isChecked))
      ensures ticked == (if chckBox && !IsReal(value) then true else old(ticked))
      ensures enabled == (if IsEmpty(value) || (chckBox && !IsReal(value)) then true else old(enabled))
      ensures background == (if chckBox && IsEmpty(value) then Red else if chckBox && !IsReal(value) then Yellow else old(background))
    {
      if value.None? || value.value == "" {
        if chckBox {
          ticked := true;
          isChecked := true;
          Refresh();
          background := Red;
        }
        text := "";
        enabled := true;
      } else if chckBox && value.value == "$NULL" {
        background := Yellow;
        text := "";
        ticked := true;
        isChecked := true;
        enabled := true;
        Refresh();
      } else if value.value == "$NULL" {
        text := "";
      } else {
        isValid := true;
        text := value.value;
      }
    }

    /**
      getValue: the control's value after the XML escaping (not part of this
      model, so a parameter) with every newline and quote removed and every
      other character kept in order.
     */
    method GetValue(escape: string -> string) returns (r: string)
      ensures r == KeepOthers(escape(text), Dropped)
      ensures forall c :: c in r ==> c !in Dropped
    {
      var value := escape(text);
      CleanedKeepsOthers(value);
      KeepOthersAvoids(value, Dropped);
      value := Remove(value, '\n');
      value := Remove(value, '"');
      value := Remove(value, '\'');
      r := value;
    }
  }

  /** A box of metadata items with its own repetition buttons. */
  class MdBox {
    var mdItems: seq<MdItem>
    var hasAddButton: bool
    var hasRemoveButton: bool

    constructor ()
      ensures mdItems == [] && !hasAddButton && !hasRemoveButton
    {
      mdItems := [];
      hasAddButton := false;
      hasRemoveButton := false;
    }

    /** addItems: the items join the box in order, and the `+` and `-` buttons are created as BoxButtons says. */
    method AddItems(items: seq<MdItem>, multi: Option<bool>, rmMulti: bool, isFirstNum: int)
      modifies this
      ensures mdItems == old(mdItems) + items
      ensures var b := BoxButtons(multi, rmMulti, isFirstNum);
              hasAddButton == (old(hasAddButton) || b.add) && hasRemoveButton == (old(hasRemoveButton) || b.remove)
    {
      var m := multi;
      var rm := rmMulti;
      if isFirstNum != 1 {
        m := Some(false);
        rm := true;
      }
      if m.None? {
        m := Some(true);
      }
      var i := 0;
      while i < |items|
        invariant 0 <= i <= |items|
        invariant mdItems == old(mdItems) + items[..i]
        invariant hasAddButton == old(hasAddButton) && hasRemoveButton == old(hasRemoveButton)
      {
        mdItems := mdItems + [items[i]];
        assert items[..i + 1] == items[..i] + [items[i]];
        i := i + 1;
      }
      assert items[..|items|] == items;
      if m.value {
        hasAddButton := true;
      }
      if rm {
        hasRemoveButton := true;
      }
    }
  }

  /** The items of every descriptor. */
  ghost function AllItems(descs: seq<seq<MdItem>>): set<MdItem>
  {
    set k, j | 0 <= k < |descs| && 0 <= j < |descs[k]| :: descs[k][j]
  }

  /** refreshChkboxes: every item of every descriptor gets the double onChangeChckBox call. */
  method RefreshChkboxes(descs: seq<seq<MdItem>>)
    modifies AllItems(descs)
    ensures forall it :: it in AllItems(descs) ==>
              && it.isChecked == old(it.isChecked) && it.enabled == it.isChecked
              && it.isValid == old(it.isValid) && it.ticked == old(it.ticked)
              && it.text == old(it.text) && it.background == old(it.background)
  {
    ghost var done: set<MdItem> := {};
    var k := 0;
    while k < |descs|
      invariant 0 <= k <= |descs|
      invariant done == set k', j | 0 <= k' < k && 0 <= j < |descs[k']| :: descs[k'][j]
      invariant forall it :: it in AllItems(descs) ==>
                  && it.isChecked == old(it.isChecked) && (it in done ==> it.enabled == it.isChecked)
                  && (it !in done ==> it.enabled == old(it.enabled))
                  && it.isValid == old(it.isValid) && it.ticked == old(it.ticked)
                  && it.text == old(it.text) && it.background == old(it.background)
    {
      var j := 0;
      while j < |descs[k]|
        invariant 0 <= j <= |descs[k]|
        invariant done == (set k', j' | 0 <= k' < k && 0 <= j' < |descs[k']| :: descs[k'][j']) + (set j' | 0 <= j' < j :: descs[k][j'])
        invariant forall it :: it in AllItems(descs) ==>
                    && it.isChecked == old(it.isChecked) && (it in done ==> it.enabled == it.isChecked)
                    && (it !in done ==> it.enabled == old(it.enabled))
                    && it.isValid == old(it.isValid) && it.ticked == old(it.ticked)
                    && it.text == old(it.text) && it.background == old(it.background)
      {
        var it := descs[k][j];
        it.Refresh();
        done := done + {it};
        j := j + 1;
      }
      k := k + 1;
    }
  }
}
