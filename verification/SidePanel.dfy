/** Replaying a session's side-panel tool calls into a snapshot, as in src/bin/tui_bench.rs. */
module SidePanel {
  import opened Utils

  const U64_MAX: nat := 0xFFFF_FFFF_FFFF_FFFF

  // ---------- sessions and pages ----------

  datatype Source = Managed | LinkedFile

  datatype Page = Page(id: string, title: string, filePath: string, source: Source, content: string, updatedAt: nat)

  /** The JSON fields of a side-panel call, None where missing or of another type. */
  datatype Input = Input(
    action: Option<string>, pageId: Option<string>, filePath: Option<string>, title: Option<string>,
    content: Option<string>, focus: Option<bool>)

  datatype Block = ToolUse(name: string, input: Input) | OtherBlock

  /** What the replay asks of its surroundings: the session id, blank titles, file stems, and file contents. */
  datatype World = World(
    session: string, blank: string -> bool, stem: string -> Option<string>, read: string -> Option<string>)

  datatype State = State(pages: map<string, Page>, focused: Option<string>, revision: nat)

  function SaturatingAdd(a: nat): nat {
    if a < U64_MAX then a + 1 else U64_MAX
  }

  function Title(w: World, i: Input, page: string): string {
    if i.title.Some? && !w.blank(i.title.value) then i.title.value else page
  }

  function Appended(before: string, more: string): string {
    (if before != "" && before[|before| - 1] != '\n' then before + "\n" else before) + more
  }

  function Focused(i: Input, page: string, before: Option<string>): Option<string> {
    if GetOr(i.focus, true) then Some(page) else before
  }

  /** The call a block makes on the side panel, if it makes one that does anything. */
  datatype Call =
    | Write(page: string, input: Input)
    | Append(page: string, input: Input)
    | Load(page: string, path: string, input: Input)
    | Focus(page: string)
    | Delete(page: string)
    | Nothing

  function CallOf(w: World, b: Block): Call {
    if !b.ToolUse? || b.name != "side_panel" then Nothing else
    var i := b.input;
    var action := GetOr(i.action, "");
    if action == "write" then (if i.pageId.Some? then Write(i.pageId.value, i) else Nothing)
    else if action == "append" then (if i.pageId.Some? then Append(i.pageId.value, i) else Nothing)
    else if action == "load" then
      var page := if i.pageId.Some? then i.pageId else if i.filePath.Some? then w.stem(i.filePath.value) else None;
      if page.Some? && i.filePath.Some? then Load(page.value, i.filePath.value, i) else Nothing
    else if action == "focus" then (if i.pageId.Some? then Focus(i.pageId.value) else Nothing)
    else if action == "delete" then (if i.pageId.Some? then Delete(i.pageId.value) else Nothing)
    else Nothing
  }

  // ---------- one page by itself ----------

  /** A page without its time stamp. */
  datatype Body = Body(title: string, filePath: string, source: Source, content: string)

  function BodyOf(p: Page): Body {
    Body(p.title, p.filePath, p.source, p.content)
  }

  function Fresh(w: World, page: string): Body {
    Body("", "session://" + w.session + "/" + page + ".md", Managed, "")
  }

  /** The page a call is about, if it can change one. */
  function Subject(c: Call): Option<string> {
    match c
    case Write(p, _) => Some(p)
    case Append(p, _) => Some(p)
    case Load(p, _, _) => Some(p)
    case Delete(p) => Some(p)
    case _ => None
  }

  /** What a call does to its own page. */
  function OwnStep(w: World, body: Option<Body>, c: Call): Option<Body> {
    match c
    case Write(p, i) => Some(GetOr(body, Fresh(w, p)).(title := Title(w, i, p), content := GetOr(i.content, "")))
    case Append(p, i) =>
      var b := GetOr(body, Fresh(w, p));
      Some(b.(title := Title(w, i, p), content := Appended(b.content, GetOr(i.content, ""))))
    case Load(p, path, i) => Some(Body(Title(w, i, p), path, LinkedFile, GetOr(w.read(path), "")))
    case Delete(_) => None
    case _ => body
  }

  function OwnReplay(w: World, body: Option<Body>, calls: seq<Call>): Option<Body>
    decreases |calls|
  {
    if calls == [] then body else OwnReplay(w, OwnStep(w, body, calls[0]), calls[1..])
  }

  /** The calls about `page`. */
  function About(page: string, calls: seq<Call>): seq<Call> {
    if calls == [] then [] else (if Subject(calls[0]) == Some(page) then [calls[0]] else []) + About(page, calls[1..])
  }

  // ---------- the replay ----------

  function Put(w: World, s: State, page: string, i: Input, body: Body): State {
    State(s.pages[page := Page(page, body.title, body.filePath, body.source, body.content, s.revision)],
          Focused(i, page, s.focused), SaturatingAdd(s.revision))
  }

  function BodyIn(s: State, page: string): Option<Body> {
    if page in s.pages then Some(BodyOf(s.pages[page])) else None
  }

  function Step(w: World, s: State, c: Call): State {
    match c
    case Write(p, i) => Put(w, s, p, i, OwnStep(w, BodyIn(s, p), c).value)
    case Append(p, i) => Put(w, s, p, i, OwnStep(w, BodyIn(s, p), c).value)
    case Load(p, _, i) => Put(w, s, p, i, OwnStep(w, BodyIn(s, p), c).value)
    case Focus(p) => s.(focused := Some(p))
    case Delete(p) => s.(pages := s.pages - {p}, focused := if s.focused == Some(p) then None else s.focused)
    case Nothing => s
  }

  function Replay(w: World, s: State, calls: seq<Call>): State
    decreases |calls|
  {
    if calls == [] then s else Replay(w, Step(w, s, calls[0]), calls[1..])
  }

  const INITIAL: State := State(map[], None, 1)

  lemma StepProjects(w: World, s: State, c: Call, page: string)
    ensures BodyIn(Step(w, s, c), page) ==
            if Subject(c) == Some(page) then OwnStep(w, BodyIn(s, page), c) else BodyIn(s, page)
  {
    hide Title, Appended, Focused, Fresh;
  }

  /** Title, content, file and source of a page depend on the calls about that page alone. */
  lemma {:induction false} ReplayProjects(w: World, s: State, calls: seq<Call>, page: string)
    ensures BodyIn(Replay(w, s, calls), page) == OwnReplay(w, BodyIn(s, page), About(page, calls))
    decreases |calls|
  {
    hide Step, OwnStep;
    if calls != [] {
      StepProjects(w, s, calls[0], page);
      ReplayProjects(w, Step(w, s, calls[0]), calls[1..], page);
      if Subject(calls[0]) == Some(page) {
        assert About(page, calls)[1..] == About(page, calls[1..]);
      } else {
        assert About(page, calls) == About(page, calls[1..]);
      }
    }
  }

  lemma {:induction false} OwnReplayConcat(w: World, body: Option<Body>, a: seq<Call>, b: seq<Call>)
    ensures OwnReplay(w, body, a + b) == OwnReplay(w, OwnReplay(w, body, a), b)
    decreases |a|
  {
    hide OwnStep;
    if a == [] {
      assert a + b == b;
    } else {
      assert (a + b)[1..] == a[1..] + b;
      OwnReplayConcat(w, OwnStep(w, body, a[0]), a[1..], b);
    }
  }

  lemma {:induction false} AboutConcat(page: string, a: seq<Call>, b: seq<Call>)
    ensures About(page, a + b) == About(page, a) + About(page, b)
    decreases |a|
  {
    hide Subject;
    if a == [] {
      assert a + b == b;
    } else {
      AboutConcat(page, a[1..], b);
      var first := if Subject(a[0]) == Some(page) then [a[0]] else [];
      assert (a + b)[1..] == a[1..] + b;
      assert first + (About(page, a[1..]) + About(page, b)) == first + About(page, a[1..]) + About(page, b);
    }
  }

  /** Nothing before a page's last deletion matters to it. */
  lemma DeletionForgets(w: World, s: State, before: seq<Call>, after: seq<Call>, page: string)
    ensures BodyIn(Replay(w, s, before + [Delete(page)] + after), page) == OwnReplay(w, None, About(page, after))
  {
    hide OwnReplay, Replay;
    var calls := before + [Delete(page)] + after;
    ReplayProjects(w, s, calls, page);
    AboutConcat(page, before + [Delete(page)], after);
    AboutConcat(page, before, [Delete(page)]);
    OwnReplayConcat(w, BodyIn(s, page), About(page, before + [Delete(page)]), About(page, after));
    OwnReplayConcat(w, BodyIn(s, page), About(page, before), [Delete(page)]);
    DeleteAlone(w, OwnReplay(w, BodyIn(s, page), About(page, before)), page);
  }

  lemma DeleteAlone(w: World, body: Option<Body>, page: string)
    ensures OwnReplay(w, body, [Delete(page)]) == None && About(page, [Delete(page)]) == [Delete(page)]
  {
    assert [Delete(page)][1..] == [];
  }

  lemma {:induction false} ReplayConcat(w: World, s: State, a: seq<Call>, b: seq<Call>)
    ensures Replay(w, s, a + b) == Replay(w, Replay(w, s, a), b)
    decreases |a|
  {
    hide Step;
    if a == [] {
      assert a + b == b;
    } else {
      assert (a + b)[1..] == a[1..] + b;
      ReplayConcat(w, Step(w, s, a[0]), a[1..], b);
    }
  }

  // ---------- what a page holds ----------

  /** The texts that `calls` append to `page`, in order. */
  function Appends(page: string, calls: seq<Call>): seq<string> {
    if calls == [] then [] else
    (if calls[0].Append? && calls[0].page == page then [GetOr(calls[0].input.content, "")] else [])
    + Appends(page, calls[1..])
  }

  /** The piece follows the text, after a newline if the text is not empty and does not end in one. */
  function OnNewLine(text: string, piece: string): string {
    if text == "" || text[|text| - 1] == '\n' then text + piece else text + "\n" + piece
  }

  /** All pieces one after the other, each on a new line. */
  function Joined(base: string, pieces: seq<string>): string {
    if pieces == [] then base else OnNewLine(Joined(base, pieces[..|pieces| - 1]), pieces[|pieces| - 1])
  }

  /** What was appended earlier stays at the front. */
  lemma {:induction false} JoinedExtends(base: string, pieces: seq<string>, more: seq<string>)
    ensures Joined(base, pieces) <= Joined(base, pieces + more)
    decreases |more|
  {
    if more == [] {
      assert pieces + more == pieces;
    } else {
      JoinedExtends(base, pieces, more[..|more| - 1]);
      assert (pieces + more)[..|pieces + more| - 1] == pieces + more[..|more| - 1];
    }
  }

  lemma {:induction false} JoinedFirst(base: string, piece: string, pieces: seq<string>)
    ensures Joined(base, [piece] + pieces) == Joined(Joined(base, [piece]), pieces)
    decreases |pieces|
  {
    hide OnNewLine;
    if pieces == [] {
      assert [piece] + pieces == [piece];
    } else {
      JoinedFirst(base, piece, pieces[..|pieces| - 1]);
      assert ([piece] + pieces)[..|pieces|] == [piece] + pieces[..|pieces| - 1];
    }
  }

  lemma JoinedOne(base: string, piece: string)
    ensures Joined(base, [piece]) == OnNewLine(base, piece)
  {
    hide OnNewLine;
    assert [piece][..0] == [];
  }

  /** No call of `calls` deletes `page` or loads a file into it, and no call rewrites it. */
  ghost predicate OnlyAppends(page: string, calls: seq<Call>) {
    forall c :: c in calls && Subject(c) == Some(page) ==> c.Append?
  }

  ghost predicate NeitherLoadsNorDeletes(page: string, calls: seq<Call>) {
    forall c :: c in calls && Subject(c) == Some(page) ==> c.Append? || c.Write?
  }

  lemma StepAppend(w: World, s: State, page: string, i: Input)
    ensures var t := Step(w, s, Append(page, i));
      var before := if page in s.pages then s.pages[page].content else "";
      page in t.pages && t.pages[page].content == Joined(before, [GetOr(i.content, "")])
  {
    hide Title, Focused;
    JoinedOne(if page in s.pages then s.pages[page].content else "", GetOr(i.content, ""));
  }

  lemma StepOther(w: World, s: State, c: Call, page: string)
    requires Subject(c) != Some(page)
    ensures page in Step(w, s, c).pages <==> page in s.pages
    ensures page in s.pages ==> Step(w, s, c).pages[page] == s.pages[page]
  {
    hide OwnStep, Focused;
  }

  /** From any state on, appending adds to a page's text, creating the page if need be. */
  lemma {:induction false} ContentAfterAppends(w: World, s: State, calls: seq<Call>, page: string)
    requires OnlyAppends(page, calls)
    ensures var end := Replay(w, s, calls);
      var before := if page in s.pages then s.pages[page].content else "";
      && (page in end.pages <==> page in s.pages || Appends(page, calls) != [])
      && (page in end.pages ==> end.pages[page].content == Joined(before, Appends(page, calls)))
    decreases |calls|
  {
    hide Step;
    if calls != [] {
      var c := calls[0];
      assert c in calls && forall d :: d in calls[1..] ==> d in calls;
      ContentAfterAppends(w, Step(w, s, c), calls[1..], page);
      if Subject(c) == Some(page) {
        StepAppend(w, s, page, c.input);
        JoinedFirst(if page in s.pages then s.pages[page].content else "", GetOr(c.input.content, ""),
                    Appends(page, calls[1..]));
      } else {
        StepOther(w, s, c, page);
        assert Appends(page, calls) == Appends(page, calls[1..]);
      }
    }
  }

  lemma StepResets(w: World, s: State, c: Call)
    requires c.Write? || c.Load? || c.Delete?
    ensures var t := Step(w, s, c);
      match c
      case Write(p, i) => p in t.pages && t.pages[p].content == GetOr(i.content, "")
      case Load(p, path, i) => p in t.pages && t.pages[p].content == GetOr(w.read(path), "")
      case Delete(p) => p !in t.pages
      case _ => true
  {
    hide Title, Focused;
  }

  lemma ReplayThrough(w: World, s: State, before: seq<Call>, c: Call, after: seq<Call>)
    ensures Replay(w, s, before + [c] + after) == Replay(w, Step(w, Replay(w, s, before), c), after)
  {
    hide Step;
    ReplayConcat(w, s, before + [c], after);
    ReplayConcat(w, s, before, [c]);
    assert [c][1..] == [];
  }

  /** A page's text: what the last write or load put there, or nothing after a deletion, and all appended since. */
  lemma ContentSince(w: World, s: State, before: seq<Call>, c: Call, after: seq<Call>)
    requires (c.Write? || c.Load? || c.Delete?) && OnlyAppends(c.page, after)
    ensures var end := Replay(w, s, before + [c] + after);
      && (c.page in end.pages <==> !c.Delete? || Appends(c.page, after) != [])
      && (c.page in end.pages ==>
            end.pages[c.page].content == Joined(
              match c
              case Write(_, i) => GetOr(i.content, "")
              case Load(_, path, _) => GetOr(w.read(path), "")
              case _ => "",
              Appends(c.page, after)))
  {
    hide Step, Replay, Appends, OnlyAppends, Joined;
    ReplayThrough(w, s, before, c, after);
    StepResets(w, Replay(w, s, before), c);
    ContentAfterAppends(w, Step(w, Replay(w, s, before), c), after, c.page);
  }

  lemma {:induction false} UntouchedPage(w: World, s: State, calls: seq<Call>, page: string)
    requires forall c :: c in calls ==> Subject(c) != Some(page)
    ensures page in Replay(w, s, calls).pages <==> page in s.pages
    ensures page in s.pages ==> Replay(w, s, calls).pages[page] == s.pages[page]
    decreases |calls|
  {
    hide Step, Subject;
    if calls != [] {
      assert calls[0] in calls && forall d :: d in calls[1..] ==> d in calls;
      StepOther(w, s, calls[0], page);
      UntouchedPage(w, Step(w, s, calls[0]), calls[1..], page);
    }
  }

  lemma StepTitles(w: World, s: State, c: Call)
    requires c.Write? || c.Append? || c.Load?
    ensures c.page in Step(w, s, c).pages
    ensures Step(w, s, c).pages[c.page].title ==
            match c.input.title
            case Some(t) => if w.blank(t) then c.page else t
            case None => c.page
  {
    hide Appended, Focused;
  }

  /** A page is titled by the last call about it, by its id when that call gives no title or a blank one. */
  lemma TitleOfLastCall(w: World, s: State, before: seq<Call>, c: Call, after: seq<Call>)
    requires c.Write? || c.Append? || c.Load?
    requires forall d :: d in after ==> Subject(d) != Some(c.page)
    ensures var end := Replay(w, s, before + [c] + after);
      && c.page in end.pages
      && end.pages[c.page].title ==
         match c.input.title
         case Some(t) => if w.blank(t) then c.page else t
         case None => c.page
  {
    hide Step, Replay;
    ReplayThrough(w, s, before, c, after);
    StepTitles(w, Replay(w, s, before), c);
    UntouchedPage(w, Step(w, Replay(w, s, before), c), after, c.page);
  }

  lemma StepKeepsFile(w: World, s: State, c: Call, page: string)
    requires page in s.pages && (Subject(c) == Some(page) ==> c.Append? || c.Write?)
    ensures page in Step(w, s, c).pages
    ensures Step(w, s, c).pages[page].filePath == s.pages[page].filePath
    ensures Step(w, s, c).pages[page].source == s.pages[page].source
  {
    hide Title, Focused, Appended;
  }

  lemma {:induction false} FileKept(w: World, s: State, calls: seq<Call>, page: string)
    requires page in s.pages && NeitherLoadsNorDeletes(page, calls)
    ensures var end := Replay(w, s, calls);
      page in end.pages
      && end.pages[page].filePath == s.pages[page].filePath && end.pages[page].source == s.pages[page].source
    decreases |calls|
  {
    hide Step, Subject;
    if calls != [] {
      assert calls[0] in calls && forall d :: d in calls[1..] ==> d in calls;
      StepKeepsFile(w, s, calls[0], page);
      FileKept(w, Step(w, s, calls[0]), calls[1..], page);
    }
  }

  lemma StepPlaces(w: World, s: State, c: Call)
    requires c.Load? || ((c.Write? || c.Append?) && c.page !in s.pages)
    ensures var t := Step(w, s, c);
      && c.page in t.pages
      && t.pages[c.page].source == (if c.Load? then LinkedFile else Managed)
      && t.pages[c.page].filePath == if c.Load? then c.path else "session://" + w.session + "/" + c.page + ".md"
  {
    hide Title, Focused, Appended;
  }

  /** File and source of a page: those of the last load, or of its creation by a write or append. */
  lemma FileSince(w: World, s: State, before: seq<Call>, c: Call, after: seq<Call>)
    requires c.Load? || ((c.Write? || c.Append?) && c.page !in Replay(w, s, before).pages)
    requires NeitherLoadsNorDeletes(c.page, after)
    ensures var end := Replay(w, s, before + [c] + after);
      && c.page in end.pages
      && end.pages[c.page].source == (if c.Load? then LinkedFile else Managed)
      && end.pages[c.page].filePath == if c.Load? then c.path else "session://" + w.session + "/" + c.page + ".md"
  {
    hide Step, Replay, NeitherLoadsNorDeletes;
    ReplayThrough(w, s, before, c, after);
    StepPlaces(w, Replay(w, s, before), c);
    FileKept(w, Step(w, Replay(w, s, before), c), after, c.page);
  }

  // ---------- the focus ----------

  /** A focus call, or a write, append or load that does not say `"focus": false`. */
  predicate Focuses(c: Call) {
    c.Focus? || ((c.Write? || c.Append? || c.Load?) && c.input.focus != Some(false))
  }

  lemma StepFocus(w: World, s: State, c: Call)
    ensures Step(w, s, c).focused ==
            if Focuses(c) then Some(c.page)
            else if c.Delete? && s.focused == Some(c.page) then None
            else s.focused
  {
    hide OwnStep;
  }

  lemma {:induction false} FocusKept(w: World, s: State, calls: seq<Call>)
    requires forall c :: c in calls ==> !Focuses(c)
    ensures Replay(w, s, calls).focused ==
            if s.focused.Some? && Delete(s.focused.value) in calls then None else s.focused
    decreases |calls|
  {
    hide Step, Focuses;
    if calls != [] {
      assert calls == [calls[0]] + calls[1..];
      assert calls[0] in calls && forall d :: d in calls[1..] ==> d in calls;
      StepFocus(w, s, calls[0]);
      FocusKept(w, Step(w, s, calls[0]), calls[1..]);
    }
  }

  /** The focus is on the page of the last focusing call, unless that page was deleted afterwards. */
  lemma FocusSince(w: World, s: State, before: seq<Call>, c: Call, after: seq<Call>)
    requires Focuses(c) && forall d :: d in after ==> !Focuses(d)
    ensures Replay(w, s, before + [c] + after).focused == if Delete(c.page) in after then None else Some(c.page)
  {
    hide Step, Replay, Focuses;
    ReplayThrough(w, s, before, c, after);
    StepFocus(w, Replay(w, s, before), c);
    FocusKept(w, Step(w, Replay(w, s, before), c), after);
  }

  // ---------- which calls the blocks make ----------

  ghost predicate SaysAction(b: Block, action: string) {
    b.ToolUse? && b.name == "side_panel" && b.input.action == Some(action)
  }

  /** The page a load is about: the one named, else the stem of its file. */
  function LoadTarget(w: World, i: Input): Option<string> {
    match (i.pageId, i.filePath)
    case (Some(p), _) => Some(p)
    case (None, Some(path)) => w.stem(path)
    case (None, None) => None
  }

  /** A block does something exactly if it names a known action and the page or file that action needs. */
  lemma CallsMean(w: World, b: Block)
    ensures var c := CallOf(w, b);
      && (c.Write? <==> SaysAction(b, "write") && b.input.pageId.Some?)
      && (c.Append? <==> SaysAction(b, "append") && b.input.pageId.Some?)
      && (c.Load? <==> SaysAction(b, "load") && b.input.filePath.Some? && LoadTarget(w, b.input).Some?)
      && (c.Focus? <==> SaysAction(b, "focus") && b.input.pageId.Some?)
      && (c.Delete? <==> SaysAction(b, "delete") && b.input.pageId.Some?)
      && (c.Write? || c.Append? ==> c.input == b.input)
      && (c.Load? ==> c.input == b.input && Some(c.path) == b.input.filePath && Some(c.page) == LoadTarget(w, b.input))
      && (c.Write? || c.Append? || c.Focus? || c.Delete? ==> Some(c.page) == b.input.pageId)
  {
  }

  // ---------- time stamps ----------

  ghost predicate StampsDistinct(s: State) {
    && 1 <= s.revision <= U64_MAX
    && (forall p :: p in s.pages ==> s.pages[p].id == p && s.pages[p].updatedAt <= s.revision)
    && (s.revision < U64_MAX ==>
          && (forall p :: p in s.pages ==> s.pages[p].updatedAt < s.revision)
          && forall p, q :: p in s.pages && q in s.pages && p != q ==> s.pages[p].updatedAt != s.pages[q].updatedAt)
  }

  lemma StepKeepsStamps(w: World, s: State, c: Call)
    requires StampsDistinct(s)
    ensures StampsDistinct(Step(w, s, c))
  {
    hide OwnStep, Focused;
  }

  /** Below the 64-bit limit no two pages carry the same time stamp. */
  lemma {:induction false} ReplayKeepsStamps(w: World, s: State, calls: seq<Call>)
    requires StampsDistinct(s)
    ensures StampsDistinct(Replay(w, s, calls))
    decreases |calls|
  {
    hide Step, StampsDistinct;
    if calls != [] {
      StepKeepsStamps(w, s, calls[0]);
      ReplayKeepsStamps(w, Step(w, s, calls[0]), calls[1..]);
    }
  }

  // ---------- the sorted snapshot ----------

  predicate Less(a: string, b: string) {
    if b == "" then false else if a == "" then true
    else a[0] < b[0] || (a[0] == b[0] && Less(a[1..], b[1..]))
  }

  /** The most recently updated page first, then by id. */
  predicate Before(a: Page, b: Page) {
    a.updatedAt > b.updatedAt || (a.updatedAt == b.updatedAt && Less(a.id, b.id))
  }

  lemma {:induction false} LessTotal(a: string, b: string)
    ensures a == b || Less(a, b) || Less(b, a)
    ensures !(Less(a, b) && Less(b, a)) && !Less(a, a)
    decreases |a|
  {
    if a != "" {
      LessTotal(a[1..], a[1..]);
      if b != "" {
        LessTotal(a[1..], b[1..]);
        assert a == [a[0]] + a[1..] && b == [b[0]] + b[1..];
      }
    }
  }

  /** Strings are compared at the first place where they differ; a proper beginning comes first. */
  lemma {:induction false} LessMeans(common: string, a: string, b: string)
    requires a != "" && b != "" ==> a[0] != b[0]
    ensures Less(common + a, common + b) <==> b != "" && (a == "" || a[0] < b[0])
  {
    if common == "" {
      assert common + a == a && common + b == b;
    } else {
      LessMeans(common[1..], a, b);
      assert (common + a)[1..] == common[1..] + a && (common + b)[1..] == common[1..] + b;
    }
  }

  lemma {:induction false} LessTransitive(a: string, b: string, c: string)
    requires Less(a, b) && Less(b, c)
    ensures Less(a, c)
    decreases |a|
  {
    if a != "" && a[0] == b[0] && b[0] == c[0] {
      LessTransitive(a[1..], b[1..], c[1..]);
    }
  }

  lemma BeforeIsStrictOrder(a: Page, b: Page, c: Page)
    ensures a.id != b.id ==> Before(a, b) || Before(b, a)
    ensures !(Before(a, b) && Before(b, a)) && !Before(a, a)
    ensures Before(a, b) && Before(b, c) ==> Before(a, c)
  {
    LessTotal(a.id, b.id);
    LessTotal(a.id, a.id);
    if Less(a.id, b.id) && Less(b.id, c.id) {
      LessTransitive(a.id, b.id, c.id);
    }
  }

  ghost predicate Sorted(s: seq<Page>) {
    forall i, j :: 0 <= i < j < |s| ==> Before(s[i], s[j])
  }

  /** `s` lists the pages of the map, each once, in the order of the snapshot. */
  ghost predicate Lists(s: seq<Page>, pages: map<string, Page>) {
    Sorted(s) && forall p :: p in s <==> p in pages.Values
  }

  /** There is only one such list, so the order in which the hash map yields its values cannot show. */
  lemma {:induction false} ListIsUnique(s: seq<Page>, t: seq<Page>)
    requires Sorted(s) && Sorted(t) && forall p :: p in s <==> p in t
    ensures s == t
    decreases |s|
  {
    hide Before;
    NoMembers(s);
    NoMembers(t);
    if s != [] {
      assert s[0] in s && s[0] in t;
      assert t[0] in t && t[0] in s;
      HeadsAgree(s, t);
      TailMembers(s);
      TailMembers(t);
      ListIsUnique(s[1..], t[1..]);
      assert s == [s[0]] + s[1..] && t == [t[0]] + t[1..];
    }
  }

  lemma NoMembers(s: seq<Page>)
    ensures s == [] <==> forall p :: p !in s
  {
    if s != [] {
      assert s[0] in s;
    }
  }

  lemma HeadsAgree(s: seq<Page>, t: seq<Page>)
    requires Sorted(s) && Sorted(t) && s != [] && t != [] && s[0] in t && t[0] in s
    ensures s[0] == t[0]
  {
    hide Before;
    BeforeIsStrictOrder(s[0], t[0], s[0]);
  }

  lemma TailMembers(s: seq<Page>)
    requires Sorted(s) && s != []
    ensures Sorted(s[1..]) && forall p :: p in s[1..] <==> p in s && p != s[0]
  {
    hide Before;
    forall p | p in s[1..]
      ensures p != s[0]
    {
      BeforeIsStrictOrder(s[0], p, p);
    }
  }

  /** Puts one page into its place. */
  method Insert(s: seq<Page>, p: Page) returns (r: seq<Page>)
    requires Sorted(s) && forall q :: q in s ==> q.id != p.id
    ensures Sorted(r) && forall q :: q in r <==> q in s || q == p
  {
    hide Before;
    var k := 0;
    while k < |s| && Before(s[k], p)
      invariant 0 <= k <= |s| && forall i :: 0 <= i < k ==> Before(s[i], p)
    {
      k := k + 1;
    }
    r := s[..k] + [p] + s[k..];
    forall i | k <= i < |s|
      ensures Before(p, s[i])
    {
      BeforeIsStrictOrder(s[k], p, p);
      BeforeIsStrictOrder(p, s[k], s[i]);
      assert s[k] in s;
    }
  }

  /** `into_values` in any order, then `sort_by`. */
  method SortPages(pages: map<string, Page>) returns (s: seq<Page>)
    requires forall p :: p in pages ==> pages[p].id == p
    ensures Lists(s, pages)
  {
    hide Before, Sorted;
    s := [];
    EmptyIsSorted();
    var todo := pages.Keys;
    while todo != {}
      invariant todo <= pages.Keys && Sorted(s)
      invariant forall p :: p in s <==> exists k :: k in pages && k !in todo && pages[k] == p
      decreases |todo|
    {
      var k :| k in todo;
      s := Insert(s, pages[k]);
      todo := todo - {k};
    }
  }

  lemma EmptyIsSorted()
    ensures Sorted([])
  {
  }

  // ---------- the function itself ----------

  function CallsIn(w: World, blocks: seq<Block>): seq<Call> {
    if blocks == [] then [] else [CallOf(w, blocks[0])] + CallsIn(w, blocks[1..])
  }

  function AllCalls(w: World, messages: seq<seq<Block>>): seq<Call> {
    if messages == [] then [] else CallsIn(w, messages[0]) + AllCalls(w, messages[1..])
  }

  lemma {:induction false} CallsInAt(w: World, blocks: seq<Block>)
    ensures |CallsIn(w, blocks)| == |blocks|
    ensures forall k :: 0 <= k < |blocks| ==> CallsIn(w, blocks)[k] == CallOf(w, blocks[k])
  {
    hide CallOf;
    if blocks != [] {
      CallsInAt(w, blocks[1..]);
    }
  }

  lemma CallsAssociate(a: seq<Call>, b: seq<Call>, c: seq<Call>)
    ensures a + (b + c) == a + b + c && a + [] == a
  {
  }

  /** Every block of every message is replayed, in order. */
  lemma {:induction false} AllCallsConcat(w: World, a: seq<seq<Block>>, b: seq<seq<Block>>)
    ensures AllCalls(w, a + b) == AllCalls(w, a) + AllCalls(w, b)
    ensures |a| == 1 ==> AllCalls(w, a) == CallsIn(w, a[0])
    decreases |a|
  {
    hide CallsIn;
    if a == [] {
      assert a + b == b;
    } else {
      AllCallsConcat(w, a[1..], b);
      assert (a + b)[1..] == a[1..] + b;
      CallsAssociate(CallsIn(w, a[0]), AllCalls(w, a[1..]), AllCalls(w, b));
    }
  }

  datatype Snapshot = Snapshot(focused: Option<string>, pages: seq<Page>)

  // ---------- what the order of the stamps means ----------

  /** Writing, appending and loading stamp a page. */
  predicate Stamps(c: Call) {
    c.Write? || c.Append? || c.Load?
  }

  /** How many of the first `k` calls stamp a page. */
  function Stamped(calls: seq<Call>, k: nat): (n: nat)
    requires k <= |calls|
    ensures n <= k
  {
    if k == 0 then 0 else Stamped(calls, k - 1) + if Stamps(calls[k - 1]) then 1 else 0
  }

  /** The last of the first `k` calls that stamps `page`, -1 if none does. */
  function LastStamp(calls: seq<Call>, k: nat, page: string): (i: int)
    requires k <= |calls|
    ensures -1 <= i < k && (i >= 0 ==> Stamps(calls[i]) && calls[i].page == page)
  {
    if k == 0 then -1
    else if Stamps(calls[k - 1]) && calls[k - 1].page == page then k - 1
    else LastStamp(calls, k - 1, page)
  }

  /** The stamp of the `n`th stamping call, counted from zero. */
  function StampOf(n: nat): nat {
    Min(n + 1, U64_MAX)
  }

  lemma StepStamps(w: World, s: State, c: Call, page: string)
    ensures Step(w, s, c).revision == if Stamps(c) then SaturatingAdd(s.revision) else s.revision
    ensures page in Step(w, s, c).pages ==>
              && (Stamps(c) && c.page == page ==> Step(w, s, c).pages[page].updatedAt == s.revision)
              && (!(Stamps(c) && c.page == page) ==>
                    page in s.pages && Step(w, s, c).pages[page].updatedAt == s.pages[page].updatedAt)
  {
    hide OwnStep, Focused;
  }

  lemma ReplayNext(w: World, s: State, calls: seq<Call>, k: nat)
    requires k < |calls|
    ensures Replay(w, s, calls[..k + 1]) == Step(w, Replay(w, s, calls[..k]), calls[k])
  {
    hide Step;
    assert calls[..k + 1] == calls[..k] + [calls[k]];
    ReplayConcat(w, s, calls[..k], [calls[k]]);
    assert [calls[k]][1..] == [];
  }

  lemma {:induction false} StampIsCount(w: World, calls: seq<Call>, k: nat, page: string)
    requires k <= |calls|
    ensures var s := Replay(w, INITIAL, calls[..k]);
      && s.revision == StampOf(Stamped(calls, k))
      && (page in s.pages ==>
            var i := LastStamp(calls, k, page);
            i >= 0 && s.pages[page].updatedAt == StampOf(Stamped(calls, i)))
  {
    hide Step, Stamps;
    if k > 0 {
      StampIsCount(w, calls, k - 1, page);
      ReplayNext(w, INITIAL, calls, k - 1);
      StepStamps(w, Replay(w, INITIAL, calls[..k - 1]), calls[k - 1], page);
    }
  }

  lemma {:induction false} StampedGrows(calls: seq<Call>, i: nat, k: nat)
    requires i < k <= |calls| && Stamps(calls[i])
    ensures Stamped(calls, i) < Stamped(calls, k)
    decreases k
  {
    hide Stamps;
    if i < k - 1 {
      StampedGrows(calls, i, k - 1);
    }
  }

  /** A later stamp means a later write, append or load, exactly until the counter is saturated. */
  lemma StampsFollowCalls(w: World, calls: seq<Call>, p: string, q: string)
    requires p in Replay(w, INITIAL, calls).pages && q in Replay(w, INITIAL, calls).pages
    ensures var pages := Replay(w, INITIAL, calls).pages;
      var i, j := LastStamp(calls, |calls|, p), LastStamp(calls, |calls|, q);
      && i >= 0 && j >= 0
      && (pages[p].updatedAt > pages[q].updatedAt <==> i > j && Stamped(calls, j) + 1 < U64_MAX)
  {
    hide Replay, Stamped, Stamps;
    assert calls[..|calls|] == calls;
    StampIsCount(w, calls, |calls|, p);
    StampIsCount(w, calls, |calls|, q);
    var i, j := LastStamp(calls, |calls|, p), LastStamp(calls, |calls|, q);
    if i < j {
      StampedGrows(calls, i, j);
    } else if j < i {
      StampedGrows(calls, j, i);
    }
  }

  /** In a session of at most 2^64 - 1 calls the list shows the pages in the order of their last change. */
  lemma ListFollowsCalls(w: World, calls: seq<Call>, s: seq<Page>)
    requires |calls| <= U64_MAX && Lists(s, Replay(w, INITIAL, calls).pages)
    ensures forall i, j :: 0 <= i < j < |s| ==>
              LastStamp(calls, |calls|, s[i].id) > LastStamp(calls, |calls|, s[j].id)
  {
    hide Replay, Stamped, Less;
    var pages := Replay(w, INITIAL, calls).pages;
    ReplayKeepsStamps(w, INITIAL, calls);
    forall i, j | 0 <= i < j < |s|
      ensures LastStamp(calls, |calls|, s[i].id) > LastStamp(calls, |calls|, s[j].id)
    {
      BeforeMeansLater(w, calls, s[i], s[j]) by {
        assert s[i] in s && s[j] in s;
        BeforeIsStrictOrder(s[i], s[j], s[i]);
      }
    }
  }

  lemma BeforeMeansLater(w: World, calls: seq<Call>, a: Page, b: Page)
    requires |calls| <= U64_MAX && Before(a, b)
    requires var pages := Replay(w, INITIAL, calls).pages;
      a.id in pages && b.id in pages && pages[a.id] == a && pages[b.id] == b
    ensures LastStamp(calls, |calls|, a.id) > LastStamp(calls, |calls|, b.id)
  {
    hide Replay, Stamped, Less;
    StampsFollowCalls(w, calls, a.id, b.id);
    StampsFollowCalls(w, calls, b.id, a.id);
    if a.id == b.id {
      BeforeIsStrictOrder(a, a, a);
    }
  }

  class Panel {
    var pages: map<string, Page>
    var focused: Option<string>
    var revision: nat

    ghost function Value(): State
      reads this
    {
      State(pages, focused, revision)
    }

    constructor ()
      ensures Value() == INITIAL
    {
      pages, focused, revision := map[], None, 1;
    }

    /** The body of the inner loop: `continue` where a call lacks what it needs. */
    method Block(w: World, b: Block)
      modifies this
      ensures Value() == Step(w, old(Value()), CallOf(w, b))
    {
      if !b.ToolUse? || b.name != "side_panel" {
        return;
      }
      var i := b.input;
      var action := GetOr(i.action, "");
      if action == "write" || action == "append" {
        if i.pageId.None? {
          return;
        }
        var id := i.pageId.value;
        var title := Title(w, i, id);
        var page := if id in pages then pages[id]
                    else Page(id, title, "session://" + w.session + "/" + id + ".md", Managed, "", revision);
        page := page.(id := id, title := title);
        var content := GetOr(i.content, "");
        if action == "append" && page.content != "" && page.content[|page.content| - 1] != '\n' {
          page := page.(content := page.content + "\n");
        }
        page := page.(content := if action == "append" then page.content + content else content, updatedAt := revision);
        pages := pages[id := page];
        if GetOr(i.focus, true) {
          focused := Some(id);
        }
        revision := SaturatingAdd(revision);
      } else if action == "load" {
        var pageId := if i.pageId.Some? then i.pageId
                      else if i.filePath.Some? then w.stem(i.filePath.value) else None;
        if pageId.None? || i.filePath.None? {
          return;
        }
        var id, path := pageId.value, i.filePath.value;
        pages := pages[id := Page(id, Title(w, i, id), path, LinkedFile, GetOr(w.read(path), ""), revision)];
        if GetOr(i.focus, true) {
          focused := Some(id);
        }
        revision := SaturatingAdd(revision);
      } else if action == "focus" {
        if i.pageId.Some? {
          focused := i.pageId;
        }
      } else if action == "delete" {
        if i.pageId.Some? {
          pages := pages - {i.pageId.value};
          if focused == i.pageId {
            focused := None;
          }
        }
      }
    }

    method Message(w: World, blocks: seq<Block>)
      modifies this
      ensures Value() == Replay(w, old(Value()), CallsIn(w, blocks))
    {
      hide Step, CallOf;
      for k := 0 to |blocks|
        invariant Replay(w, Value(), CallsIn(w, blocks[k..])) == Replay(w, old(Value()), CallsIn(w, blocks))
      {
        assert blocks[k..][1..] == blocks[k + 1..];
        Block(w, blocks[k]);
      }
    }
  }

  /** The snapshot is the sorted list of the replayed pages, focused on the last page asked for, else on the first. */
  method Reconstruct(w: World, messages: seq<seq<Block>>) returns (s: Snapshot)
    ensures var end := Replay(w, INITIAL, AllCalls(w, messages));
      && Lists(s.pages, end.pages)
      && (|AllCalls(w, messages)| <= U64_MAX ==>
            forall i, j :: 0 <= i < j < |s.pages| ==>
              LastStamp(AllCalls(w, messages), |AllCalls(w, messages)|, s.pages[i].id)
              > LastStamp(AllCalls(w, messages), |AllCalls(w, messages)|, s.pages[j].id))
      && s.focused == if end.focused.Some? || s.pages == [] then end.focused else Some(s.pages[0].id)
  {
    hide Step, CallOf, Lists;
    var panel := new Panel();
    for k := 0 to |messages|
      invariant fresh(panel)
      invariant Replay(w, panel.Value(), AllCalls(w, messages[k..])) == Replay(w, INITIAL, AllCalls(w, messages))
    {
      assert messages[k..][1..] == messages[k + 1..];
      ReplayConcat(w, panel.Value(), CallsIn(w, messages[k]), AllCalls(w, messages[k + 1..]));
      panel.Message(w, messages[k]);
    }
    ReplayKeepsStamps(w, INITIAL, AllCalls(w, messages));
    var pages := SortPages(panel.pages);
    var focused := panel.focused;
    if focused.None? && pages != [] {
      focused := Some(pages[0].id);
    }
    if |AllCalls(w, messages)| <= U64_MAX {
      ListFollowsCalls(w, AllCalls(w, messages), pages);
    }
    s := Snapshot(focused, pages);
  }
}
