/**
 The controller behind the editor commands (the `CodePalette` class of
 src/extension.ts), restated as functions from the history and the user's
 input to the new history and an effect on the editor. The editor calls are
 effect values: `Paste(text)` stands for the two-step delete-then-insert edit,
 `NoEditorWarning` for the warning shown when no editor is open.

 The quick-pick menu is asynchronous: it is built from the history when it
 opens and its answer is applied to the history as it is when the user picks.
 `OpenBrowse`/`FinishBrowse` and `OpenRemove`/`FinishRemove` keep those two
 moments apart; `ShowClipboard` and `RemoveClip` are the case where nothing
 changes the history in between.
 */
module Palette {
  import opened Text
  import opened Clips
  import opened ClipHistory

  datatype Option<T> = None | Some(value: T)

  /** Which clips the history menu offers. */
  datatype Mode = All | Language | File

  /** The two facts about the active document the controller reads. */
  datatype Document = Document(fileName: string, languageId: string)

  /** An open editor: its document and the text of each selection, in selection order. */
  datatype Editor = Editor(document: Document, selections: seq<string>)

  /** What a command asks of the editor. */
  datatype Effect = NoEffect | Paste(text: string) | NoEditorWarning

  /** An entry of the quick-pick menu: a real clip, or the synthetic clear entry. */
  datatype MenuItem = ClipItem(clip: Clip) | ClearItem

  /** The three strings the quick pick shows for an entry; `title` is its label. */
  datatype Row = Row(title: string, description: string, detail: Option<string>)

  /** The user's answer to the menu: dismissed, or the entry at `index`. */
  datatype Pick = Dismissed | Picked(index: nat)

  /** A history after a command, and what the command asks of the editor. */
  datatype Step = Step(history: History, effect: Effect)

  /** The controller's state: the history and the id the next capture gets. */
  datatype State = State(history: History, nextId: nat)

  const ClearDescription: string := "Clear Clipboard"

  /** Every clip has an id below `nextId`, and no two clips share one. */
  predicate Valid(s: State) {
    && ClipHistory.UniqueIds(s.history)
    && forall k :: 0 <= k < |s.history| ==> s.history[k].id < s.nextId
  }

  /** Whether the menu in mode `mode` offers `c` while `doc` is active. */
  predicate Offered(c: Clip, mode: Mode, doc: Document) {
    match mode
    case All => true
    case File => SameIgnoringCase(c.filename, doc.fileName)
    case Language => SameIgnoringCase(c.language, doc.languageId)
  }

  /**
   Array `filter` with the File or Language test: the clips of `h` that
   `mode` offers, each as often as in `h`, in their order in `h`.
   */
  function Select(h: History, mode: Mode, doc: Document): (r: History)
    ensures ClipHistory.IsSubsequence(r, h)
    ensures forall c :: multiset(r)[c] == if Offered(c, mode, doc) then multiset(h)[c] else 0
    decreases |h|
  {
    if h == [] then []
    else
      var rest := Select(h[1..], mode, doc);
      assert h == [h[0]] + h[1..];
      if Offered(h[0], mode, doc) then
        assert ([h[0]] + rest)[1..] == rest;
        [h[0]] + rest
      else
        rest
  }

  /**
   The clips the history menu lists: every clip in mode All, otherwise those
   whose file name, or language, equals the active document's up to case;
   always in history order.
   */
  function FilterClips(h: History, mode: Mode, doc: Document): (r: History)
    ensures mode == All ==> r == h
    ensures ClipHistory.IsSubsequence(r, h)
    ensures forall c :: c in r <==> c in h && Offered(c, mode, doc)
    ensures forall c :: multiset(r)[c] == if Offered(c, mode, doc) then multiset(h)[c] else 0
  {
    if mode == All then
      ClipHistory.SubsequenceOfItself(h);
      h
    else
      var r := Select(h, mode, doc);
      assert forall c :: c in r <==> multiset(r)[c] > 0;
      r
  }

  /**
   The filtering contract leaves no choice: a subsequence of `h` holding each
   offered clip as often as `h` does, and nothing else, is the filtered list.
   */
  lemma {:induction false} FilterIsDetermined(h: History, mode: Mode, doc: Document, r: History)
    requires ClipHistory.IsSubsequence(r, h)
    requires forall c :: multiset(r)[c] == if Offered(c, mode, doc) then multiset(h)[c] else 0
    ensures r == Select(h, mode, doc)
    decreases |h|
  {
    if h != [] {
      var x := h[0];
      assert h == [x] + h[1..];
      if r != [] && r[0] == x && ClipHistory.IsSubsequence(r[1..], h[1..]) {
        assert r == [x] + r[1..];
        FilterIsDetermined(h[1..], mode, doc, r[1..]);
      } else {
        assert ClipHistory.IsSubsequence(r, h[1..]);
        ClipHistory.SubsequenceCountsAtMost(r, h[1..], x);
        FilterIsDetermined(h[1..], mode, doc, r);
      }
    }
  }

  /**
   `showClipboardMenu`: the offered clips, then exactly one clear entry,
   last. The list is a fresh value, so the history never holds the clear entry.
   */
  function Menu(clips: History): (m: seq<MenuItem>)
    ensures |m| == |clips| + 1
    ensures forall k :: 0 <= k < |clips| ==> m[k] == ClipItem(clips[k])
    ensures m[|clips|] == ClearItem
    ensures multiset(m)[ClearItem] == 1
  {
    var items := seq(|clips|, k requires 0 <= k < |clips| => ClipItem(clips[k]));
    assert ClearItem !in items;
    items + [ClearItem]
  }

  /** How the quick pick shows an entry. */
  function Present(item: MenuItem): (r: Row)
    ensures item.ClearItem? ==> r.title == "" && r.description == ClearDescription && r.detail.None?
    ensures item.ClipItem? ==>
      && r.title == Label(item.clip)
      && |r.description| == |item.clip.language|
      && (forall k :: 0 <= k < |r.description| ==> !IsAsciiLower(r.description[k]))
      && SameIgnoringCase(r.description, item.clip.language)
      && r.detail == Some(item.clip.filename)
  {
    match item
    case ClipItem(c) => Row(Label(c), Description(c), Some(Detail(c)))
    case ClearItem => Row("", ClearDescription, None)
  }

  /**
   No clip is shown with the clear entry's description: a language tag is
   upper-cased, and "Clear Clipboard" holds lower-case letters.
   */
  lemma ClipRowIsNeverClearRow(c: Clip)
    ensures Present(ClipItem(c)).description != ClearDescription
  {
    var d := Description(c);
    assert Present(ClipItem(c)).description == d;
    NoLowerCaseIsNotClear(d);
  }

  lemma NoLowerCaseIsNotClear(d: string)
    requires forall k :: 0 <= k < |d| ==> !IsAsciiLower(d[k])
    ensures d != ClearDescription
  {
    assert IsAsciiLower(ClearDescription[1]);
  }

  /** The host returns either nothing or one of the listed entries. */
  predicate PickFrom(menu: seq<MenuItem>, pick: Pick) {
    pick.Picked? ==> pick.index < |menu|
  }

  /** What `showClipboardOptions` hands back, after any clearing of its own. */
  datatype Resolution = Resolution(history: History, chosen: Option<Clip>)

  /**
   `showClipboardOptions`, applied to the history `h` current when the user
   answers: dismissing hands back nothing, a clip entry hands back that clip,
   and the clear entry empties the whole history and hands back nothing.
   */
  function ResolveMenu(h: History, menu: seq<MenuItem>, pick: Pick): (r: Resolution)
    requires PickFrom(menu, pick)
    ensures r.chosen.Some? <==> pick.Picked? && menu[pick.index].ClipItem?
    ensures r.chosen.Some? ==> r.chosen.value == menu[pick.index].clip
    ensures r.history == h || r.history == []
    ensures |r.history| == 0 <==> |h| == 0 || (pick.Picked? && menu[pick.index].ClearItem?)
  {
    match pick
    case Dismissed => Resolution(h, None)
    case Picked(i) =>
      match menu[i]
      case ClipItem(c) => Resolution(h, Some(c))
      case ClearItem => Resolution(ClipHistory.Clear(h), None)
  }

  /** The menu `showClipboard` opens on history `h`. */
  function OpenBrowse(h: History, mode: Mode, doc: Document): (m: seq<MenuItem>)
    ensures |m| == |FilterClips(h, mode, doc)| + 1
    ensures forall k :: 0 <= k < |m| - 1 ==> m[k] == ClipItem(FilterClips(h, mode, doc)[k])
    ensures m[|m| - 1] == ClearItem
  {
    Menu(FilterClips(h, mode, doc))
  }

  /** The end of `showClipboard`: a chosen clip's text is pasted, nothing is removed. */
  function FinishBrowse(h: History, menu: seq<MenuItem>, pick: Pick): (r: Step)
    requires PickFrom(menu, pick)
    ensures pick.Dismissed? ==> r == Step(h, NoEffect)
    ensures pick.Picked? && menu[pick.index].ClipItem? ==>
      r == Step(h, Paste(menu[pick.index].clip.text))
    ensures pick.Picked? && menu[pick.index].ClearItem? ==> r == Step([], NoEffect)
  {
    var res := ResolveMenu(h, menu, pick);
    Step(res.history, if res.chosen.Some? then Paste(res.chosen.value.text) else NoEffect)
  }

  /**
   `showClipboard` with nothing changing the history while the menu is open.
   Dismissing changes nothing; picking the k-th offered clip pastes its text
   and keeps the history; picking the clear entry empties the whole history,
   clips the filter hid included.
   */
  function ShowClipboard(h: History, mode: Mode, doc: Document, pick: Pick): (r: Step)
    requires pick.Picked? ==> pick.index <= |FilterClips(h, mode, doc)|
    ensures pick.Dismissed? ==> r == Step(h, NoEffect)
    ensures pick.Picked? && pick.index < |FilterClips(h, mode, doc)| ==>
      var c := FilterClips(h, mode, doc)[pick.index];
      && c in h && Offered(c, mode, doc)
      && r == Step(h, Paste(c.text))
    ensures pick == Picked(|FilterClips(h, mode, doc)|) ==> r == Step([], NoEffect)
  {
    FinishBrowse(h, OpenBrowse(h, mode, doc), pick)
  }

  /** The menu `removeClip` opens: every clip, unfiltered. */
  function OpenRemove(h: History): (m: seq<MenuItem>)
    ensures |m| == |h| + 1
    ensures forall k :: 0 <= k < |m| - 1 ==> m[k] == ClipItem(h[k])
    ensures m[|m| - 1] == ClearItem
  {
    Menu(h)
  }

  /** The end of `removeClip`: a chosen clip is removed from `h`, nothing is pasted. */
  function FinishRemove(h: History, menu: seq<MenuItem>, pick: Pick): (r: Step)
    requires PickFrom(menu, pick)
    ensures r.effect == NoEffect
    ensures pick.Dismissed? ==> r.history == h
    ensures pick.Picked? && menu[pick.index].ClipItem? ==>
      r.history == ClipHistory.RemoveClip(h, menu[pick.index].clip)
    ensures pick.Picked? && menu[pick.index].ClearItem? ==> r.history == []
  {
    var res := ResolveMenu(h, menu, pick);
    Step(if res.chosen.Some? then ClipHistory.RemoveClip(res.history, res.chosen.value) else res.history,
         NoEffect)
  }

  /**
   `removeClip` with nothing changing the history while the menu is open.
   Dismissing changes nothing; picking the k-th clip removes one occurrence of
   it and keeps the others in order; picking the clear entry empties the
   history. Nothing is ever pasted.
   */
  function RemoveClip(h: History, pick: Pick): (r: Step)
    requires pick.Picked? ==> pick.index <= |h|
    ensures r.effect == NoEffect
    ensures pick.Dismissed? ==> r.history == h
    ensures pick.Picked? && pick.index < |h| ==>
      && |r.history| == |h| - 1
      && multiset(r.history) == multiset(h) - multiset{h[pick.index]}
      && ClipHistory.IsSubsequence(r.history, h)
    ensures pick == Picked(|h|) ==> r.history == []
  {
    // Both branches compute the same step; the first only calls the lemma
    // that gives the subsequence clause.
    if pick.Picked? && pick.index < |h| then
      ClipHistory.RemoveClipKeepsOrder(h, h[pick.index]);
      FinishRemove(h, OpenRemove(h), pick)
    else
      FinishRemove(h, OpenRemove(h), pick)
  }

  /**
   With unique ids, removing through the menu takes out exactly the picked
   capture and keeps the state valid.
   */
  lemma RemoveClipTakesOutPickedCapture(s: State, i: nat)
    requires Valid(s) && i < |s.history|
    ensures var h' := RemoveClip(s.history, Picked(i)).history;
      && Valid(State(h', s.nextId))
      && forall d :: d in h' <==> d in s.history && d != s.history[i]
  {
    var h := s.history;
    var menu := OpenRemove(h);
    assert menu[i] == ClipItem(h[i]);
    var h' := FinishRemove(h, menu, Picked(i)).history;
    assert h' == ClipHistory.RemoveClip(h, h[i]);
    ClipHistory.RemoveClipDropsExactlyThatClip(h, h[i]);
    forall k | 0 <= k < |h'|
      ensures h'[k].id < s.nextId
    {
      assert h'[k] in h;
    }
  }

  /**
   A menu answered after its clip was removed by another command removes
   nothing, since `removeClip` of an absent clip is a no-op.
   */
  lemma StaleRemovalIsHarmless(h: History, menu: seq<MenuItem>, i: nat)
    requires i < |menu| && menu[i].ClipItem? && menu[i].clip !in h
    ensures FinishRemove(h, menu, Picked(i)) == Step(h, NoEffect)
  {
  }

  /** Every step of the history menus keeps the state valid. */
  lemma MenusKeepValid(s: State, menu: seq<MenuItem>, pick: Pick)
    requires Valid(s) && PickFrom(menu, pick)
    ensures Valid(State(FinishBrowse(s.history, menu, pick).history, s.nextId))
    ensures Valid(State(FinishRemove(s.history, menu, pick).history, s.nextId))
  {
    var res := ResolveMenu(s.history, menu, pick);
    if res.chosen.Some? {
      ClipHistory.RemoveClipDropsExactlyThatClip(s.history, res.chosen.value);
      var h' := FinishRemove(s.history, menu, pick).history;
      forall k | 0 <= k < |h'|
        ensures h'[k].id < s.nextId
      {
        assert h'[k] in s.history;
      }
    }
  }

  /**
   `pasteClip`: `index in clips` holds for the positions of the array, so the
   clip at raw position `index` is pasted when there is one, and nothing
   happens otherwise.
   */
  function PasteClip(h: History, index: int): (e: Effect)
    ensures e.Paste? <==> 0 <= index < |h|
    ensures 0 <= index < |h| ==> e == Paste(h[index].text)
    ensures !(0 <= index < |h|) ==> e == NoEffect
  {
    if 0 <= index < |h| then Paste(h[index].text) else NoEffect
  }

  /**
   The paste commands pass their slot number 1 to 5 as the index, so slot N
   pastes the clip at position N, the (N+1)-th oldest: the oldest clip is
   never reachable, and with a single clip every slot does nothing.
   */
  lemma SlotNPastesPositionN(h: History, slot: int)
    requires 1 <= slot <= 5
    ensures |h| > slot ==> PasteClip(h, slot) == Paste(h[slot].text)
    ensures |h| <= slot ==> PasteClip(h, slot) == NoEffect
    ensures |h| == 1 ==> PasteClip(h, slot) == NoEffect
  {
  }

  /**
   `addClip`: with no editor, warn and change nothing; otherwise append one
   clip per selection, in selection order, each with the document's file name
   and language and a fresh id.
   */
  method AddClip(s: State, editor: Option<Editor>) returns (t: State, e: Effect)
    ensures editor.None? ==> t == s && e == NoEditorWarning
    ensures editor.Some? ==>
      var sels := editor.value.selections;
      var doc := editor.value.document;
      && e == NoEffect
      && |t.history| == |s.history| + |sels|
      && t.history[..|s.history|] == s.history
      && (forall k :: 0 <= k < |sels| ==>
            t.history[|s.history| + k] == Clip(s.nextId + k, sels[k], doc.fileName, doc.languageId))
      && t.nextId == s.nextId + |sels|
    ensures Valid(s) ==> Valid(t)
  {
    if editor.None? {
      return s, NoEditorWarning;
    }
    var sels := editor.value.selections;
    var doc := editor.value.document;
    var h := s.history;
    var n := s.nextId;
    for k := 0 to |sels|
      invariant |h| == |s.history| + k
      invariant h[..|s.history|] == s.history
      invariant forall m :: 0 <= m < k ==>
        h[|s.history| + m] == Clip(s.nextId + m, sels[m], doc.fileName, doc.languageId)
      invariant n == s.nextId + k
      invariant Valid(s) ==> Valid(State(h, n))
    {
      h := ClipHistory.AddClip(h, Clip(n, sels[k], doc.fileName, doc.languageId));
      n := n + 1;
    }
    t := State(h, n);
    e := NoEffect;
  }

  /**
   The scenario of one capture of "foo" from a TypeScript file and one of
   "bar" from a Python file: the language menu for TypeScript offers only the
   first, the file menu for the Python file only the second.
   */
  lemma TwoFileScenario()
    ensures var foo := Clip(0, "foo", "a.ts", "typescript");
      var bar := Clip(1, "bar", "b.py", "python");
      && FilterClips([foo, bar], Language, Document("a.ts", "typescript")) == [foo]
      && FilterClips([foo, bar], File, Document("b.py", "python")) == [bar]
  {
    var foo := Clip(0, "foo", "a.ts", "typescript");
    var bar := Clip(1, "bar", "b.py", "python");
    SameIgnoringCaseIsPointwise("python", "typescript");
    SameIgnoringCaseIsPointwise("a.ts", "b.py");
    assert "a.ts"[0] == 'a' && "b.py"[0] == 'b';
    assert LowerChar("a.ts"[0]) != LowerChar("b.py"[0]);
    assert !Offered(bar, Language, Document("a.ts", "typescript"));
    assert !Offered(foo, File, Document("b.py", "python"));
  }
}
