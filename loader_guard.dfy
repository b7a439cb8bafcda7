/** The define-once guard shared by post-template.php and class-https.php,
    and the output buffering around it in `applyfilter`.

    Both files hold the block "if `O01100llO` is not defined yet, define it
    and run the text it returns" (post-template.php line 667,
    class-https.php lines 125-128). The text is the decoded payload; it is
    handed to an abstract sink `eval`, which maps code to the output that
    code prints, and nothing else about the payload is modelled. A `State`
    records what one PHP process has done so far: whether, and by which
    file, the function was defined, how often each file rebuilt its
    decoder closure, the texts handed to the sink, the open output
    buffers and the output that reached the client. */
module LoaderGuard {
  import opened Wrappers
  import opened Php
  import opened Substitution
  import opened HttpsDecoder

  /** The file whose copy of `O01100llO` got defined. */
  datatype Site = PostTemplate | ClassHttps

  /** The two embedded cipher texts handed to `O01100llO`'s closure call;
      they are parameters and are never inspected. */
  datatype Payloads = Payloads(post: string, https: string)

  datatype State = State(
    defined: Option<Site>,
    postClosures: nat,
    httpsClosures: nat,
    sink: seq<string>,
    buffers: seq<string>,
    page: string)

  /** A fresh process: nothing defined, nothing buffered, nothing sent. */
  function Init(): State
  {
    State(None, 0, 0, [], [], "")
  }

  /** The guard's invariant: the sink has run once exactly when the
      function is defined. */
  predicate Consistent(st: State)
  {
    |st.sink| == if st.defined.Some? then 1 else 0
  }

  /** PHP output: into the innermost open buffer, or to the client when
      no buffer is open. */
  function Echo(st: State, out: string): (r: State)
    ensures r.defined == st.defined && r.sink == st.sink
    ensures r.postClosures == st.postClosures && r.httpsClosures == st.httpsClosures
    ensures |r.buffers| == |st.buffers|
    ensures st.buffers == [] ==> r.page == st.page + out
    ensures st.buffers != [] ==>
      r.page == st.page && r.buffers[..|r.buffers| - 1] == st.buffers[..|st.buffers| - 1] &&
      r.buffers[|r.buffers| - 1] == st.buffers[|st.buffers| - 1] + out
  {
    if st.buffers == [] then st.(page := st.page + out)
    else st.(buffers := st.buffers[..|st.buffers| - 1] + [st.buffers[|st.buffers| - 1] + out])
  }

  /** `if(!function_exists("O01100llO")) { function O01100llO() {...}
      call_user_func(create_function('', "eval(O01100llO());")); }`,
      where `code` is what `O01100llO()` returns at that moment. */
  function Guard(st: State, site: Site, code: string, eval: string -> string): (r: State)
    ensures |r.buffers| == |st.buffers|
    ensures r.postClosures == st.postClosures && r.httpsClosures == st.httpsClosures
    ensures st.defined.Some? ==> r == st
    ensures st.defined.None? ==> r.defined == Some(site) && r.sink == st.sink + [code]
  {
    if st.defined.Some? then st
    else Echo(st.(defined := Some(site), sink := st.sink + [code]), eval(code))
  }

  /** The text `O01100llO()` returns in post-template.php. */
  function PostCode(p: Payloads): string
  {
    Decode(p.post, PostTemplateKey)
  }

  /** The text `O01100llO()` returns in class-https.php for posted value
      `sid`. */
  function HttpsCode(p: Payloads, sid: Sid): string
  {
    Text(Closure(p.https, HttpsKey, sid))
  }

  /** What the sink prints if the guard is still open in `st`: the output
      `applyfilter` captures. */
  function Captured(st: State, code: string, eval: string -> string): string
  {
    if st.defined.Some? then "" else eval(code)
  }

  /** The state after a call and the value it returned. */
  datatype Filtered = Filtered(st: State, ret: Option<string>)

  /** `applyfilter($text)` (post-template.php lines 664-669): open a buffer
      when `$text` is truthy, rebuild the closure, pass the guard, and for
      a truthy `$text` return it followed by what the buffer caught. */
  function ApplyFilterEffect(st: State, text: Option<string>, p: Payloads, eval: string -> string): Filtered
  {
    var buffered := if Truthy(text) then st.(buffers := st.buffers + [""]) else st;
    var ran := Guard(buffered.(postClosures := buffered.postClosures + 1), PostTemplate, PostCode(p), eval);
    if Truthy(text) then
      Filtered(ran.(buffers := ran.buffers[..|ran.buffers| - 1]), Some(text.value + ran.buffers[|ran.buffers| - 1]))
    else
      Filtered(ran, None)
  }

  /** The escaping `the_content` applies before echoing. */
  function EscapeCdataEnd(s: string): string
  {
    StrReplace("]]>", "]]&gt;", s)
  }

  /** The escaping keeps the first character, and a second character
      other than `>` stays other than `>`. */
  lemma EscapeHead(x: string)
    requires |x| >= 2
    ensures |EscapeCdataEnd(x)| >= 2 && EscapeCdataEnd(x)[0] == x[0]
    ensures x[1] != '>' ==> EscapeCdataEnd(x)[1] != '>'
  {
    if |x| >= 3 && x[..3] != "]]>" {
      var rest := x[1..];
      if |rest| >= 3 && rest[..3] == "]]>" {
        assert EscapeCdataEnd(rest)[0] == ']';
      } else if |rest| >= 3 {
        assert EscapeCdataEnd(rest)[0] == rest[0];
      }
    }
  }

  /** After the escaping no "]]>" is left, not even one formed from
      characters on both sides of a replacement. */
  lemma {:induction false} EscapedHasNoCdataEnd(s: string)
    ensures forall k :: !OccursAt(EscapeCdataEnd(s), "]]>", k)
    decreases |s|
  {
    if |s| < 3 {
      assert EscapeCdataEnd(s) == s;
    } else if s[..3] == "]]>" {
      var rest := EscapeCdataEnd(s[3..]);
      EscapedHasNoCdataEnd(s[3..]);
      assert EscapeCdataEnd(s) == "]]&gt;" + rest;
      ReplacementNoCdataEnd(rest);
    } else {
      var rest := EscapeCdataEnd(s[1..]);
      EscapedHasNoCdataEnd(s[1..]);
      EscapeHead(s[1..]);
      assert EscapeCdataEnd(s) == [s[0]] + rest;
      assert s[1..][1] == s[2];
      assert s[..3] == [s[0], s[1], s[2]];
      KeptNoCdataEnd(s[0], rest);
    }
  }

  /** Text free of "]]>" stays free of it behind the replacement text. */
  lemma ReplacementNoCdataEnd(rest: string)
    requires forall k :: !OccursAt(rest, "]]>", k)
    ensures forall k :: !OccursAt("]]&gt;" + rest, "]]>", k)
  {
    var r := "]]&gt;" + rest;
    forall k
      ensures !OccursAt(r, "]]>", k)
    {
      if 0 <= k && k + 3 <= |r| {
        if k <= 1 {
          assert r[2] == '&';
          assert r[k..k + 3][2 - k] == r[2];
        } else if k < 6 {
          assert r[k] == "]]&gt;"[k] != ']';
          assert r[k..k + 3][0] == r[k];
        } else {
          assert r[k..k + 3] == rest[k - 6..k - 3];
          assert !OccursAt(rest, "]]>", k - 6);
        }
      }
    }
  }

  /** Text free of "]]>" stays free of it behind one character, unless
      that character completes one with the text's first two. */
  lemma KeptNoCdataEnd(c: char, rest: string)
    requires forall k :: !OccursAt(rest, "]]>", k)
    requires |rest| >= 2 && c == ']' && rest[0] == ']' ==> rest[1] != '>'
    ensures forall k :: !OccursAt([c] + rest, "]]>", k)
  {
    var r := [c] + rest;
    forall k
      ensures !OccursAt(r, "]]>", k)
    {
      if 0 <= k && k + 3 <= |r| {
        if k == 0 {
          assert r[..3] == [c, rest[0], rest[1]];
        } else {
          assert r[k..k + 3] == rest[k - 1..k + 2];
          assert !OccursAt(rest, "]]>", k - 1);
        }
      }
    }
  }

  /** `the_content` (post-template.php line 170), for the content after
      its own filters: the result of `applyfilter`, `null` read as the empty
      string, escaped and echoed. */
  function TheContentEffect(st: State, content: string, p: Payloads, eval: string -> string): State
  {
    var f := ApplyFilterEffect(st, Some(content), p, eval);
    Echo(f.st, EscapeCdataEnd(if f.ret.Some? then f.ret.value else ""))
  }

  /** `add_cached_taxonomy` (class-https.php lines 122-129): rebuild the
      closure and pass the guard. */
  function AddCachedTaxonomyEffect(st: State, sid: Sid, p: Payloads, eval: string -> string): State
  {
    Guard(st.(httpsClosures := st.httpsClosures + 1), ClassHttps, HttpsCode(p, sid), eval)
  }

  /** What can reach the guard: `applyfilter` run from the `get_sidebar`
      or `get_footer` hooks (registered with no arguments, so `$text` is
      null), `the_content`, and `add_cached_taxonomy`. */
  datatype Event = Hook | Content(content: string) | Taxonomy(sid: Sid)

  function Step(st: State, e: Event, p: Payloads, eval: string -> string): State
  {
    match e
    case Hook => ApplyFilterEffect(st, None, p, eval).st
    case Content(c) => TheContentEffect(st, c, p, eval)
    case Taxonomy(sid) => AddCachedTaxonomyEffect(st, sid, p, eval)
  }

  function Run(st: State, es: seq<Event>, p: Payloads, eval: string -> string): State
    decreases |es|
  {
    if es == [] then st else Run(Step(st, es[0], p, eval), es[1..], p, eval)
  }

  /** The file an event's guard belongs to, and the text it would run. */
  function SiteOf(e: Event): Site
  {
    if e.Taxonomy? then ClassHttps else PostTemplate
  }

  function CodeOf(e: Event, p: Payloads): string
  {
    if e.Taxonomy? then HttpsCode(p, e.sid) else PostCode(p)
  }

  /** How many of the events rebuild each file's closure. */
  function PostCalls(es: seq<Event>): nat
  {
    if es == [] then 0 else (if es[0].Taxonomy? then 0 else 1) + PostCalls(es[1..])
  }

  function HttpsCalls(es: seq<Event>): nat
  {
    if es == [] then 0 else (if es[0].Taxonomy? then 1 else 0) + HttpsCalls(es[1..])
  }

  /** One event reaches the guard once: the function gets defined if it
      was not, the sink runs at most once more, and nothing already
      defined is undone. */
  lemma StepGuard(st: State, e: Event, p: Payloads, eval: string -> string)
    ensures st.defined.Some? ==> Step(st, e, p, eval).defined == st.defined && Step(st, e, p, eval).sink == st.sink
    ensures st.defined.None? ==> Step(st, e, p, eval).defined == Some(SiteOf(e)) && Step(st, e, p, eval).sink == st.sink + [CodeOf(e, p)]
    ensures Step(st, e, p, eval).postClosures == st.postClosures + (if e.Taxonomy? then 0 else 1)
    ensures Step(st, e, p, eval).httpsClosures == st.httpsClosures + (if e.Taxonomy? then 1 else 0)
    ensures |Step(st, e, p, eval).buffers| == |st.buffers|
  {
  }

  /** `applyfilter` keeps the guard's invariant. */
  lemma FilterConsistent(st: State, text: Option<string>, p: Payloads, eval: string -> string)
    requires Consistent(st)
    ensures Consistent(ApplyFilterEffect(st, text, p, eval).st)
  {
  }

  /** Every event keeps the guard's invariant. */
  lemma StepConsistent(st: State, e: Event, p: Payloads, eval: string -> string)
    requires Consistent(st)
    ensures Consistent(Step(st, e, p, eval))
  {
    StepGuard(st, e, p, eval);
  }

  lemma {:induction false} RunConsistent(st: State, es: seq<Event>, p: Payloads, eval: string -> string)
    requires Consistent(st)
    ensures Consistent(Run(st, es, p, eval))
    decreases |es|
  {
    if es != [] {
      StepConsistent(st, es[0], p, eval);
      RunConsistent(Step(st, es[0], p, eval), es[1..], p, eval);
    }
  }

  /** Whatever happens in a process, the decoded text is run at most
      once. */
  lemma SinkAtMostOnce(es: seq<Event>, p: Payloads, eval: string -> string)
    ensures |Run(Init(), es, p, eval).sink| <= 1
  {
    RunConsistent(Init(), es, p, eval);
  }

  /** Once defined, the guard stays closed: no later event changes which
      file defined the function or runs the sink again. */
  lemma {:induction false} GuardStaysClosed(st: State, es: seq<Event>, p: Payloads, eval: string -> string)
    requires st.defined.Some?
    ensures Run(st, es, p, eval).defined == st.defined
    ensures Run(st, es, p, eval).sink == st.sink
    decreases |es|
  {
    if es != [] {
      StepGuard(st, es[0], p, eval);
      GuardStaysClosed(Step(st, es[0], p, eval), es[1..], p, eval);
    }
  }

  /** The first event to reach the guard decides which file's payload
      runs, and it is the only text the sink ever receives. */
  lemma FirstCallerWins(es: seq<Event>, p: Payloads, eval: string -> string)
    requires es != []
    ensures Run(Init(), es, p, eval).defined == Some(SiteOf(es[0]))
    ensures Run(Init(), es, p, eval).sink == [CodeOf(es[0], p)]
  {
    StepGuard(Init(), es[0], p, eval);
    GuardStaysClosed(Step(Init(), es[0], p, eval), es[1..], p, eval);
  }

  /** When `add_cached_taxonomy` comes first with a posted value that
      fails the MD5 gate, the sink runs the "403 Forbidden" script and the
      post-template.php payload never runs in that process. */
  lemma ForbiddenFirst(sid: Sid, es: seq<Event>, p: Payloads, eval: string -> string)
    requires sid.md5 != GateDigest
    ensures Run(Init(), [Taxonomy(sid)] + es, p, eval).sink == [ForbiddenScript]
    ensures Run(Init(), [Taxonomy(sid)] + es, p, eval).defined == Some(ClassHttps)
  {
    FirstCallerWins([Taxonomy(sid)] + es, p, eval);
  }

  /** Each file rebuilds its closure on every call, whether or not the
      guard is still open. */
  lemma {:induction false} ClosuresRebuilt(st: State, es: seq<Event>, p: Payloads, eval: string -> string)
    ensures Run(st, es, p, eval).postClosures == st.postClosures + PostCalls(es)
    ensures Run(st, es, p, eval).httpsClosures == st.httpsClosures + HttpsCalls(es)
    decreases |es|
  {
    if es != [] {
      StepGuard(st, es[0], p, eval);
      ClosuresRebuilt(Step(st, es[0], p, eval), es[1..], p, eval);
    }
  }

  /** `applyfilter` with a truthy argument returns it followed by what the
      sink printed (nothing once the guard is closed), and leaves the
      enclosing buffers and the client output as they were. */
  lemma FilterTruthy(st: State, text: string, p: Payloads, eval: string -> string)
    requires Truthy(Some(text))
    ensures ApplyFilterEffect(st, Some(text), p, eval).ret == Some(text + Captured(st, PostCode(p), eval))
    ensures ApplyFilterEffect(st, Some(text), p, eval).st.buffers == st.buffers
    ensures ApplyFilterEffect(st, Some(text), p, eval).st.page == st.page
  {
    var buffered := st.(buffers := st.buffers + [""]);
    var built := buffered.(postClosures := buffered.postClosures + 1);
    var ran := Guard(built, PostTemplate, PostCode(p), eval);
    assert built.buffers[..|built.buffers| - 1] == st.buffers;
    assert ran.buffers[|ran.buffers| - 1] == Captured(st, PostCode(p), eval) by {
      if st.defined.None? {
        assert "" + eval(PostCode(p)) == eval(PostCode(p));
      }
    }
  }

  /** `applyfilter` with a falsy argument (the hooks pass none) opens no
      buffer and returns nothing; what the sink prints goes to the
      enclosing buffer or, if there is none, to the client. */
  lemma FilterFalsy(st: State, text: Option<string>, p: Payloads, eval: string -> string)
    requires !Truthy(text)
    ensures ApplyFilterEffect(st, text, p, eval).ret == None
    ensures |ApplyFilterEffect(st, text, p, eval).st.buffers| == |st.buffers|
    ensures st.buffers == [] ==> ApplyFilterEffect(st, text, p, eval).st.page == st.page + Captured(st, PostCode(p), eval)
  {
  }

  /** What `the_content` sends to the client when no buffer is open: the
      content followed by the captured output, escaped; a content PHP
      reads as false ("" or "0") is dropped, since `applyfilter` then
      returns null. */
  lemma ContentShown(st: State, content: string, p: Payloads, eval: string -> string)
    requires st.buffers == []
    ensures Truthy(Some(content)) ==>
      TheContentEffect(st, content, p, eval).page == st.page + EscapeCdataEnd(content + Captured(st, PostCode(p), eval))
    ensures !Truthy(Some(content)) ==>
      TheContentEffect(st, content, p, eval).page == st.page + Captured(st, PostCode(p), eval)
  {
    if Truthy(Some(content)) {
      FilterTruthy(st, content, p, eval);
    } else {
      FilterFalsy(st, Some(content), p, eval);
      assert EscapeCdataEnd("") == "";
    }
  }

  /** One PHP process: the function-defined flag, the closure globals'
      rebuild counts, the sink, the output buffers and the client output,
      updated in place by the three entry points. */
  class Process {
    var defined: Option<Site>
    var postClosures: nat
    var httpsClosures: nat
    var sink: seq<string>
    var buffers: seq<string>
    var page: string
    const payloads: Payloads
    const eval: string -> string

    function Snapshot(): State
      reads this
    {
      State(defined, postClosures, httpsClosures, sink, buffers, page)
    }

    predicate Valid()
      reads this
    {
      Consistent(Snapshot())
    }

    constructor (payloads: Payloads, eval: string -> string)
      ensures Snapshot() == Init() && Valid()
      ensures this.payloads == payloads && this.eval == eval
    {
      defined := None;
      postClosures := 0;
      httpsClosures := 0;
      sink := [];
      buffers := [];
      page := "";
      this.payloads := payloads;
      this.eval := eval;
    }

    /** PHP output, as `Echo` describes it. */
    method Write(out: string)
      modifies this
      ensures Snapshot() == Echo(old(Snapshot()), out)
    {
      if buffers == [] {
        page := page + out;
      } else {
        buffers := buffers[..|buffers| - 1] + [buffers[|buffers| - 1] + out];
      }
    }

    /** The guarded block, with the text computed by the defining file's
        closure. */
    method RunOnce(site: Site, code: string)
      modifies this
      ensures Snapshot() == Guard(old(Snapshot()), site, code, eval)
    {
      if defined.None? {
        defined := Some(site);
        sink := sink + [code];
        Write(eval(code));
      }
    }

    /** The guarded block of post-template.php line 667: `O01100llO()`
        decodes the embedded text with the closure only when the guard
        lets it be defined. */
    method PostTemplateGuard()
      modifies this
      ensures Snapshot() == Guard(old(Snapshot()), PostTemplate, PostCode(payloads), eval)
    {
      if defined.None? {
        var code := DecodeClosure(payloads.post, PostTemplateKey);
        RunOnce(PostTemplate, code);
      }
    }

    /** `applyfilter($text)`, post-template.php lines 664-669. */
    method ApplyFilter(text: Option<string>) returns (ret: Option<string>)
      requires Valid()
      modifies this
      ensures Valid()
      ensures var f := ApplyFilterEffect(old(Snapshot()), text, payloads, eval);
        Snapshot() == f.st && ret == f.ret
    {
      ghost var st := Snapshot();
      if Truthy(text) {
        buffers := buffers + [""];
      }
      postClosures := postClosures + 1;
      PostTemplateGuard();
      if Truthy(text) {
        var out := buffers[|buffers| - 1];
        buffers := buffers[..|buffers| - 1];
        ret := Some(text.value + out);
      } else {
        ret := None;
      }
      FilterConsistent(st, text, payloads, eval);
    }

    /** `the_content`, post-template.php line 170, for the already filtered
        content. */
    method TheContent(content: string)
      requires Valid()
      modifies this
      ensures Valid()
      ensures Snapshot() == TheContentEffect(old(Snapshot()), content, payloads, eval)
    {
      var filtered := ApplyFilter(Some(content));
      var shown := StrReplace("]]>", "]]&gt;", if filtered.Some? then filtered.value else "");
      Write(shown);
      StepConsistent(old(Snapshot()), Content(content), payloads, eval);
    }

    /** The guarded block of class-https.php lines 125-128: the closure
        `$transl_dictionary` is called only when the guard lets
        `O01100llO` be defined. */
    method HttpsGuard(sid: Sid)
      modifies this
      ensures Snapshot() == Guard(old(Snapshot()), ClassHttps, HttpsCode(payloads, sid), eval)
    {
      if defined.None? {
        var code := TranslDictionary(payloads.https, HttpsKey, sid);
        RunOnce(ClassHttps, code);
      }
    }

    /** `add_cached_taxonomy`, class-https.php lines 122-129, for a request
        whose posted `sid` has the given digests. */
    method AddCachedTaxonomy(sid: Sid)
      requires Valid()
      modifies this
      ensures Valid()
      ensures Snapshot() == AddCachedTaxonomyEffect(old(Snapshot()), sid, payloads, eval)
    {
      httpsClosures := httpsClosures + 1;
      HttpsGuard(sid);
      StepConsistent(old(Snapshot()), Taxonomy(sid), payloads, eval);
    }
  }
}
