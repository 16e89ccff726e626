/**
 * What OBJModel.Render draws, as the sequence of OpenGL calls it makes.
 * A call that throws (an empty group, a missing index array, an index the
 * pool does not have) ends the trace with `faulted` set; the calls already
 * made stay in it.
 */
module ObjRender {
  import opened Wrappers
  import opened ObjFace
  import opened ObjParser

  /** The largest int: `(int)` of a larger uint index is negative. */
  const IntMax: nat := 0x7FFF_FFFF

  datatype Mode = Quads | Triangles

  /** GL.Enable/Disable(Texture2D), Material.apply, GL.Begin/End and the
      per-vertex GL.TexCoord2/Normal3/Vertex3 calls with the pool entry passed. */
  datatype Event =
    | EnableTexture
    | ApplyMaterial(material: Material)
    | Begin(mode: Mode)
    | TexCoord(texCoord: Attr)
    | Normal(normal: Attr)
    | Vertex(vertex: Attr)
    | End
    | DisableTexture

  datatype Trace = Trace(events: seq<Event>, faulted: bool)

  const Done := Trace([], false)

  /** Run `u` after `t`, unless `t` already threw. */
  function Then(t: Trace, u: Trace): Trace
  {
    if t.faulted then t else Trace(t.events + u.events, u.faulted)
  }

  /** `pool[(int)arr[k]]`, absent when `arr` is null, too short, or the index
      is negative as an int or past the end of the pool. */
  function Lookup(pool: seq<Attr>, arr: Option<seq<nat>>, k: nat): Option<Attr>
  {
    if arr.None? || k >= |arr.value| then None
    else
      var idx := arr.value[k];
      if idx <= IntMax && idx < |pool| then Some(pool[idx]) else None
  }

  function Emit(a: Option<Attr>, make: Attr -> Event): Trace
  {
    if a.None? then Trace([], true) else Trace([make(a.value)], false)
  }

  /** Corner `k` of a face: its texture coordinate when the model has any,
      then its normal when the model has any, then its position. */
  function CornerTrace(m: ModelV, f: Face, k: nat): Trace
  {
    var tex := if m.hasTexCoords then Emit(Lookup(m.texCoords, f.texCoordIdx, k), a => TexCoord(a)) else Done;
    var norm := if m.hasNormals then Emit(Lookup(m.normals, f.normalIdx, k), a => Normal(a)) else Done;
    Then(Then(tex, norm), Emit(Lookup(m.vertices, Some(f.vertIdx), k), a => Vertex(a)))
  }

  /** The first `n` corners of a face. */
  function CornersTrace(m: ModelV, f: Face, n: nat): Trace
  {
    if n == 0 then Done else Then(CornersTrace(m, f, n - 1), CornerTrace(m, f, n - 1))
  }

  /** A face draws three corners, or four when it is a quad. */
  function FaceTrace(m: ModelV, f: Face): Trace
  {
    CornersTrace(m, f, Corners(f))
  }

  /** The first `n` faces of a list. */
  function FacesTrace(m: ModelV, faces: seq<Face>, n: nat): Trace
    requires n <= |faces|
  {
    if n == 0 then Done else Then(FacesTrace(m, faces, n - 1), FaceTrace(m, faces[n - 1]))
  }

  predicate Texturing(m: ModelV, texEnabled: bool)
  {
    m.hasTexCoords && texEnabled
  }

  function ModeOf(f: Face): Mode
  {
    if f.isQuad then Quads else Triangles
  }

  /** The calls made before GL.Begin: texturing on and the material applied. */
  function Prologue(m: ModelV, g: GroupV, texEnabled: bool): seq<Event>
  {
    if Texturing(m, texEnabled) then [EnableTexture] + (if g.mat.Some? then [ApplyMaterial(g.mat.value)] else []) else []
  }

  function Epilogue(m: ModelV, texEnabled: bool): seq<Event>
  {
    [End] + (if Texturing(m, texEnabled) then [DisableTexture] else [])
  }

  /** One group: the prologue, then Begin in the first face's mode (an empty
      group throws here), every face, End and the epilogue. */
  function GroupTrace(m: ModelV, g: GroupV, texEnabled: bool): Trace
  {
    var pre := Prologue(m, g, texEnabled);
    if |g.faces| == 0 then Trace(pre, true)
    else Then(Then(Trace(pre + [Begin(ModeOf(g.faces[0]))], false), FacesTrace(m, g.faces, |g.faces|)),
              Trace(Epilogue(m, texEnabled), false))
  }

  /** The first `n` groups. */
  function GroupsTrace(m: ModelV, texEnabled: bool, n: nat): Trace
    requires n <= |m.groups|
  {
    if n == 0 then Done else Then(GroupsTrace(m, texEnabled, n - 1), GroupTrace(m, m.groups[n - 1], texEnabled))
  }

  /** Everything Render draws. */
  function RenderTrace(m: ModelV, texEnabled: bool): Trace
  {
    GroupsTrace(m, texEnabled, |m.groups|)
  }

  // ---------------------------------------------------------------------
  // Composition facts used by the imperative renderer
  // ---------------------------------------------------------------------

  lemma ThenAssociative(a: Trace, b: Trace, c: Trace)
    ensures Then(Then(a, b), c) == Then(a, Then(b, c))
  {
  }

  lemma DoneThen(t: Trace)
    ensures Then(Done, t) == t
  {
    assert [] + t.events == t.events;
  }

  /** Once a group has thrown, no later group draws anything. */
  lemma {:induction false} GroupsFaultSticks(m: ModelV, texEnabled: bool, i: nat, n: nat)
    requires i <= n <= |m.groups| && GroupsTrace(m, texEnabled, i).faulted
    ensures GroupsTrace(m, texEnabled, n) == GroupsTrace(m, texEnabled, i)
    decreases n - i
  {
    if i < n {
      GroupsFaultSticks(m, texEnabled, i, n - 1);
    }
  }

  lemma {:induction false} FacesFaultSticks(m: ModelV, faces: seq<Face>, i: nat, n: nat)
    requires i <= n <= |faces| && FacesTrace(m, faces, i).faulted
    ensures FacesTrace(m, faces, n) == FacesTrace(m, faces, i)
    decreases n - i
  {
    if i < n {
      FacesFaultSticks(m, faces, i, n - 1);
    }
  }

  /** Only the pools and flags of a model matter for drawing one group. */
  function Pools(m: ModelV): ModelV
  {
    m.(groups := [], cur := None)
  }

  lemma {:induction false} CornersIgnoreGroups(m: ModelV, f: Face, n: nat)
    ensures CornersTrace(m, f, n) == CornersTrace(Pools(m), f, n)
  {
    if n > 0 {
      CornersIgnoreGroups(m, f, n - 1);
    }
  }

  lemma {:induction false} FacesIgnoreGroups(m: ModelV, faces: seq<Face>, n: nat)
    requires n <= |faces|
    ensures FacesTrace(m, faces, n) == FacesTrace(Pools(m), faces, n)
  {
    if n > 0 {
      FacesIgnoreGroups(m, faces, n - 1);
      CornersIgnoreGroups(m, faces[n - 1], Corners(faces[n - 1]));
    }
  }

  lemma GroupIgnoresGroups(m: ModelV, g: GroupV, texEnabled: bool)
    ensures GroupTrace(m, g, texEnabled) == GroupTrace(Pools(m), g, texEnabled)
  {
    FacesIgnoreGroups(m, g.faces, |g.faces|);
  }

  /** One more group, drawn from the pools alone. */
  lemma GroupsStep(m: ModelV, texEnabled: bool, i: nat)
    requires i < |m.groups|
    ensures GroupsTrace(m, texEnabled, i + 1) ==
      Then(GroupsTrace(m, texEnabled, i), GroupTrace(Pools(m), m.groups[i], texEnabled))
  {
    GroupIgnoresGroups(m, m.groups[i], texEnabled);
  }

  /** The trace of the first i + 1 groups, from the trace of the first i
      and the trace of group i drawn from the pools alone. */
  lemma GroupsAdvance(m: ModelV, texEnabled: bool, i: nat, events: seq<Event>, ge: seq<Event>, gf: bool)
    requires i < |m.groups| && Trace(events, false) == GroupsTrace(m, texEnabled, i)
    requires Trace(ge, gf) == GroupTrace(Pools(m), m.groups[i], texEnabled)
    ensures Trace(events + ge, gf) == GroupsTrace(m, texEnabled, i + 1)
  {
    GroupsStep(m, texEnabled, i);
  }

  /** GroupTrace spelled out: the calls up to Begin, the faces, and the
      closing calls unless a face threw. */
  lemma GroupTraceUnfold(m: ModelV, g: GroupV, texEnabled: bool)
    requires |g.faces| > 0
    ensures var head := Prologue(m, g, texEnabled) + [Begin(ModeOf(g.faces[0]))];
      var body := FacesTrace(m, g.faces, |g.faces|);
      GroupTrace(m, g, texEnabled) ==
        if body.faulted then Trace(head + body.events, true)
        else Trace(head + body.events + Epilogue(m, texEnabled), false)
  {
  }

  // ---------------------------------------------------------------------
  // What the trace promises
  // ---------------------------------------------------------------------

  /** An event only the texturing calls produce. */
  predicate TextureCall(e: Event)
  {
    e.EnableTexture? || e.ApplyMaterial? || e.DisableTexture?
  }

  predicate NoTextureCalls(evs: seq<Event>)
  {
    forall j :: 0 <= j < |evs| ==> !TextureCall(evs[j])
  }

  /** Only per-vertex calls. */
  predicate VertexCalls(evs: seq<Event>)
  {
    forall j :: 0 <= j < |evs| ==> evs[j].TexCoord? || evs[j].Normal? || evs[j].Vertex?
  }

  lemma VertexCallsAppend(a: seq<Event>, b: seq<Event>)
    requires VertexCalls(a) && VertexCalls(b)
    ensures VertexCalls(a + b)
  {
    forall j | 0 <= j < |a + b|
      ensures (a + b)[j].TexCoord? || (a + b)[j].Normal? || (a + b)[j].Vertex?
    {
      if j >= |a| { assert (a + b)[j] == b[j - |a|]; }
    }
  }

  lemma {:induction false} CornersAreVertexCalls(m: ModelV, f: Face, n: nat)
    ensures VertexCalls(CornersTrace(m, f, n).events)
  {
    if n > 0 {
      CornersAreVertexCalls(m, f, n - 1);
      var t := CornersTrace(m, f, n - 1);
      if !t.faulted {
        var tex := if m.hasTexCoords then Emit(Lookup(m.texCoords, f.texCoordIdx, n - 1), a => TexCoord(a)) else Done;
        var norm := if m.hasNormals then Emit(Lookup(m.normals, f.normalIdx, n - 1), a => Normal(a)) else Done;
        var pos := Emit(Lookup(m.vertices, Some(f.vertIdx), n - 1), a => Vertex(a));
        VertexCallsAppend(tex.events, norm.events);
        VertexCallsAppend(Then(tex, norm).events, pos.events);
        VertexCallsAppend(t.events, CornerTrace(m, f, n - 1).events);
      }
    }
  }

  lemma {:induction false} FacesAreVertexCalls(m: ModelV, faces: seq<Face>, n: nat)
    requires n <= |faces|
    ensures VertexCalls(FacesTrace(m, faces, n).events)
  {
    if n > 0 {
      FacesAreVertexCalls(m, faces, n - 1);
      CornersAreVertexCalls(m, faces[n - 1], Corners(faces[n - 1]));
      if !FacesTrace(m, faces, n - 1).faulted {
        VertexCallsAppend(FacesTrace(m, faces, n - 1).events, FaceTrace(m, faces[n - 1]).events);
      }
    }
  }

  lemma NoTextureCallsAppend(a: seq<Event>, b: seq<Event>)
    requires NoTextureCalls(a) && NoTextureCalls(b)
    ensures NoTextureCalls(a + b)
  {
    forall j | 0 <= j < |a + b|
      ensures !TextureCall((a + b)[j])
    {
      if j >= |a| { assert (a + b)[j] == b[j - |a|]; }
    }
  }

  /** Without texture coordinates in the model, or with textures hidden,
      Render never enables texturing, applies a material or disables it. */
  lemma {:induction false} NoTexturingWhenOff(m: ModelV, texEnabled: bool, n: nat)
    requires n <= |m.groups| && !Texturing(m, texEnabled)
    ensures NoTextureCalls(GroupsTrace(m, texEnabled, n).events)
  {
    if n > 0 {
      NoTexturingWhenOff(m, texEnabled, n - 1);
      var t := GroupsTrace(m, texEnabled, n - 1);
      var g := m.groups[n - 1];
      if !t.faulted && |g.faces| > 0 {
        FacesAreVertexCalls(m, g.faces, |g.faces|);
        var body := FacesTrace(m, g.faces, |g.faces|);
        assert NoTextureCalls(body.events);
        var head := Trace([Begin(ModeOf(g.faces[0]))], false);
        assert Prologue(m, g, texEnabled) == [];
        assert [] + [Begin(ModeOf(g.faces[0]))] == [Begin(ModeOf(g.faces[0]))];
        NoTextureCallsAppend(head.events, body.events);
        NoTextureCallsAppend(Then(head, body).events, Epilogue(m, texEnabled));
        NoTextureCallsAppend(t.events, GroupTrace(m, g, texEnabled).events);
      }
    }
  }

  /** The number of events of one kind. */
  function Tally(evs: seq<Event>, p: Event -> bool): nat
  {
    if evs == [] then 0 else Tally(evs[..|evs| - 1], p) + (if p(evs[|evs| - 1]) then 1 else 0)
  }

  lemma {:induction false} TallyAppend(a: seq<Event>, b: seq<Event>, p: Event -> bool)
    ensures Tally(a + b, p) == Tally(a, p) + Tally(b, p)
    decreases |b|
  {
    if b == [] {
      assert a + b == a;
    } else {
      assert (a + b)[..|a + b| - 1] == a + b[..|b| - 1];
      TallyAppend(a, b[..|b| - 1], p);
    }
  }

  lemma {:induction false} TallyVertexCalls(evs: seq<Event>, p: Event -> bool)
    requires VertexCalls(evs)
    requires forall e: Event :: e.TexCoord? || e.Normal? || e.Vertex? ==> !p(e)
    ensures Tally(evs, p) == 0
  {
    if evs != [] {
      TallyVertexCalls(evs[..|evs| - 1], p);
    }
  }

  function IsBegin(e: Event): bool { e.Begin? }
  function IsEnd(e: Event): bool { e.End? }
  function IsEnable(e: Event): bool { e.EnableTexture? }
  function IsDisable(e: Event): bool { e.DisableTexture? }

  lemma TallySingle(e: Event, p: Event -> bool)
    ensures Tally([e], p) == if p(e) then 1 else 0
  {
    assert [e][..0] == [];
  }

  /** The count of a non-vertex call in a group is that of its prologue,
      its Begin call and its epilogue. */
  lemma GroupTally(m: ModelV, g: GroupV, texEnabled: bool, p: Event -> bool)
    requires !GroupTrace(m, g, texEnabled).faulted
    requires forall e: Event :: e.TexCoord? || e.Normal? || e.Vertex? ==> !p(e)
    ensures Tally(GroupTrace(m, g, texEnabled).events, p) ==
      Tally(Prologue(m, g, texEnabled), p) + Tally([Begin(ModeOf(g.faces[0]))], p) + Tally(Epilogue(m, texEnabled), p)
  {
    var pre := Prologue(m, g, texEnabled);
    var begin := [Begin(ModeOf(g.faces[0]))];
    var body := FacesTrace(m, g.faces, |g.faces|);
    var post := Epilogue(m, texEnabled);
    assert GroupTrace(m, g, texEnabled).events == pre + begin + body.events + post;
    FacesAreVertexCalls(m, g.faces, |g.faces|);
    TallyVertexCalls(body.events, p);
    TallyAppend(pre, begin, p);
    TallyAppend(pre + begin, body.events, p);
    TallyAppend(pre + begin + body.events, post, p);
  }

  lemma PrologueTally(m: ModelV, g: GroupV, texEnabled: bool)
    ensures var pre := Prologue(m, g, texEnabled);
      && Tally(pre, IsBegin) == 0 && Tally(pre, IsEnd) == 0 && Tally(pre, IsDisable) == 0
      && Tally(pre, IsEnable) == if Texturing(m, texEnabled) then 1 else 0
  {
    if Texturing(m, texEnabled) && g.mat.Some? {
      var a := ApplyMaterial(g.mat.value);
      TallyAppend([EnableTexture], [a], IsBegin);
      TallyAppend([EnableTexture], [a], IsEnd);
      TallyAppend([EnableTexture], [a], IsEnable);
      TallyAppend([EnableTexture], [a], IsDisable);
      TallySingle(a, IsBegin);
      TallySingle(a, IsEnd);
      TallySingle(a, IsEnable);
      TallySingle(a, IsDisable);
    }
    TallySingle(EnableTexture, IsBegin);
    TallySingle(EnableTexture, IsEnd);
    TallySingle(EnableTexture, IsEnable);
    TallySingle(EnableTexture, IsDisable);
  }

  lemma EpilogueTally(m: ModelV, texEnabled: bool)
    ensures var post := Epilogue(m, texEnabled);
      && Tally(post, IsBegin) == 0 && Tally(post, IsEnd) == 1 && Tally(post, IsEnable) == 0
      && Tally(post, IsDisable) == if Texturing(m, texEnabled) then 1 else 0
  {
    TallyAppend([End], [DisableTexture], IsBegin);
    TallyAppend([End], [DisableTexture], IsEnd);
    TallyAppend([End], [DisableTexture], IsEnable);
    TallyAppend([End], [DisableTexture], IsDisable);
    TallySingle(End, IsBegin);
    TallySingle(End, IsEnd);
    TallySingle(End, IsEnable);
    TallySingle(End, IsDisable);
    TallySingle(DisableTexture, IsBegin);
    TallySingle(DisableTexture, IsEnd);
    TallySingle(DisableTexture, IsEnable);
    TallySingle(DisableTexture, IsDisable);
    if !Texturing(m, texEnabled) {
      assert Epilogue(m, texEnabled) == [End];
    }
  }

  /** A group that draws without throwing makes exactly one Begin and one
      End call, and one Enable and one Disable call when texturing is on,
      none otherwise. */
  lemma GroupBalanced(m: ModelV, g: GroupV, texEnabled: bool)
    requires !GroupTrace(m, g, texEnabled).faulted
    ensures var evs := GroupTrace(m, g, texEnabled).events;
      && Tally(evs, IsBegin) == 1 && Tally(evs, IsEnd) == 1
      && Tally(evs, IsEnable) == Tally(evs, IsDisable) == (if Texturing(m, texEnabled) then 1 else 0)
  {
    var b := Begin(ModeOf(g.faces[0]));
    PrologueTally(m, g, texEnabled);
    EpilogueTally(m, texEnabled);
    TallySingle(b, IsBegin);
    TallySingle(b, IsEnd);
    TallySingle(b, IsEnable);
    TallySingle(b, IsDisable);
    GroupTally(m, g, texEnabled, IsBegin);
    GroupTally(m, g, texEnabled, IsEnd);
    GroupTally(m, g, texEnabled, IsEnable);
    GroupTally(m, g, texEnabled, IsDisable);
  }

  /** A render that does not throw brackets every group in one Begin/End
      pair, and in one Enable/Disable pair exactly when texturing is on. */
  lemma {:induction false} RenderBalanced(m: ModelV, texEnabled: bool, n: nat)
    requires n <= |m.groups| && !GroupsTrace(m, texEnabled, n).faulted
    ensures var evs := GroupsTrace(m, texEnabled, n).events;
      && Tally(evs, IsBegin) == n && Tally(evs, IsEnd) == n
      && Tally(evs, IsEnable) == Tally(evs, IsDisable) == (if Texturing(m, texEnabled) then n else 0)
  {
    if n > 0 {
      var t := GroupsTrace(m, texEnabled, n - 1);
      var g := m.groups[n - 1];
      RenderBalanced(m, texEnabled, n - 1);
      GroupBalanced(m, g, texEnabled);
      var ge := GroupTrace(m, g, texEnabled).events;
      TallyAppend(t.events, ge, IsBegin);
      TallyAppend(t.events, ge, IsEnd);
      TallyAppend(t.events, ge, IsEnable);
      TallyAppend(t.events, ge, IsDisable);
    }
  }

  // ---------------------------------------------------------------------
  // When Render does not throw
  // ---------------------------------------------------------------------

  predicate Fetchable(pool: seq<Attr>, arr: Option<seq<nat>>, n: nat)
  {
    arr.Some? && |arr.value| >= n && forall k :: 0 <= k < n ==> arr.value[k] <= IntMax && arr.value[k] < |pool|
  }

  /** A face Render can draw: every index it reads names a pool entry. */
  predicate Drawable(m: ModelV, f: Face)
  {
    && Fetchable(m.vertices, Some(f.vertIdx), Corners(f))
    && (m.hasTexCoords ==> Fetchable(m.texCoords, f.texCoordIdx, Corners(f)))
    && (m.hasNormals ==> Fetchable(m.normals, f.normalIdx, Corners(f)))
  }

  /** Every group has a face and every face is drawable. */
  predicate Renderable(m: ModelV)
  {
    forall i :: 0 <= i < |m.groups| ==>
      |m.groups[i].faces| > 0 && forall j :: 0 <= j < |m.groups[i].faces| ==> Drawable(m, m.groups[i].faces[j])
  }

  lemma {:induction false} DrawableCorners(m: ModelV, f: Face, n: nat)
    requires n <= Corners(f) && Drawable(m, f)
    ensures !CornersTrace(m, f, n).faulted
  {
    if n > 0 {
      DrawableCorners(m, f, n - 1);
    }
  }

  lemma {:induction false} DrawableFaces(m: ModelV, faces: seq<Face>, n: nat)
    requires n <= |faces| && forall j :: 0 <= j < |faces| ==> Drawable(m, faces[j])
    ensures !FacesTrace(m, faces, n).faulted
  {
    if n > 0 {
      DrawableFaces(m, faces, n - 1);
      DrawableCorners(m, faces[n - 1], Corners(faces[n - 1]));
    }
  }

  /** One group draws without throwing exactly when it has a face and every
      face is drawable. */
  lemma GroupFaultIff(m: ModelV, g: GroupV, texEnabled: bool)
    ensures !GroupTrace(m, g, texEnabled).faulted <==>
      |g.faces| > 0 && forall j :: 0 <= j < |g.faces| ==> Drawable(m, g.faces[j])
  {
    if |g.faces| > 0 {
      if forall j :: 0 <= j < |g.faces| ==> Drawable(m, g.faces[j]) {
        DrawableFaces(m, g.faces, |g.faces|);
      } else {
        var j :| 0 <= j < |g.faces| && !Drawable(m, g.faces[j]);
        FaceFaults(m, g.faces[j]);
        FacesFault(m, g.faces, j);
        FacesFaultSticks(m, g.faces, j + 1, |g.faces|);
      }
    }
  }

  /** Render throws exactly when the model is not renderable: a renderable
      model draws in full, and conversely a full draw means every group had
      a face and every index named a pool entry. */
  lemma {:induction false} RenderableIffNoFault(m: ModelV, texEnabled: bool, n: nat)
    requires n <= |m.groups|
    ensures !GroupsTrace(m, texEnabled, n).faulted <==>
      forall i :: 0 <= i < n ==>
        |m.groups[i].faces| > 0 && forall j :: 0 <= j < |m.groups[i].faces| ==> Drawable(m, m.groups[i].faces[j])
  {
    if n > 0 {
      RenderableIffNoFault(m, texEnabled, n - 1);
      GroupFaultIff(m, m.groups[n - 1], texEnabled);
    }
  }

  lemma {:induction false} CornersFault(m: ModelV, f: Face, n: nat, k: nat)
    requires k < n && CornerTrace(m, f, k).faulted
    ensures CornersTrace(m, f, n).faulted
  {
    if n - 1 > k {
      CornersFault(m, f, n - 1, k);
    }
  }

  lemma FaceFaults(m: ModelV, f: Face)
    requires !Drawable(m, f)
    ensures FaceTrace(m, f).faulted
  {
    var n := Corners(f);
    if !Fetchable(m.vertices, Some(f.vertIdx), n) {
      if |f.vertIdx| < n {
        CornersFault(m, f, n, |f.vertIdx|);
      } else {
        var k :| 0 <= k < n && !(f.vertIdx[k] <= IntMax && f.vertIdx[k] < |m.vertices|);
        CornersFault(m, f, n, k);
      }
    } else if m.hasTexCoords && !Fetchable(m.texCoords, f.texCoordIdx, n) {
      if f.texCoordIdx.None? || |f.texCoordIdx.value| < n {
        var k := if f.texCoordIdx.None? then 0 else |f.texCoordIdx.value|;
        CornersFault(m, f, n, k);
      } else {
        var k :| 0 <= k < n && !(f.texCoordIdx.value[k] <= IntMax && f.texCoordIdx.value[k] < |m.texCoords|);
        CornersFault(m, f, n, k);
      }
    } else {
      if f.normalIdx.None? || |f.normalIdx.value| < n {
        var k := if f.normalIdx.None? then 0 else |f.normalIdx.value|;
        CornersFault(m, f, n, k);
      } else {
        var k :| 0 <= k < n && !(f.normalIdx.value[k] <= IntMax && f.normalIdx.value[k] < |m.normals|);
        CornersFault(m, f, n, k);
      }
    }
  }

  lemma {:induction false} FacesFault(m: ModelV, faces: seq<Face>, j: nat)
    requires j < |faces| && FaceTrace(m, faces[j]).faulted
    ensures FacesTrace(m, faces, j + 1).faulted
  {
  }

  /** The loader's check lets an index equal to the pool size through, and
      Render then throws on it: a face `f 1 2 4` over three positions. */
  lemma BoundaryIndexLoadsButFaults(texEnabled: bool)
    ensures var a := Attr(["0", "0", "0"]);
      var f := Face([0, 1, 3], None, None, false);
      var m := ModelV([a, a, a], [], [], [GroupV("g", None, [f])], Some(0), false, false);
      && Checked(f, 3, 0, 0) && Invariant(m)
      && RenderTrace(m, texEnabled) == Trace([Begin(Triangles), Vertex(a), Vertex(a)], true)
  {
    var a := Attr(["0", "0", "0"]);
    var f := Face([0, 1, 3], None, None, false);
    var m := ModelV([a, a, a], [], [], [GroupV("g", None, [f])], Some(0), false, false);
    assert CornersTrace(m, f, 1) == Trace([Vertex(a)], false);
    assert CornersTrace(m, f, 2) == Trace([Vertex(a), Vertex(a)], false);
    assert CornersTrace(m, f, 3) == Trace([Vertex(a), Vertex(a)], true);
  }

  /** Faces read before the first `vt` line carry no texture coordinates;
      once a later `vt` line sets the flag, drawing such a face throws. */
  lemma TexCoordsAfterFacesFault(m: ModelV, texEnabled: bool, i: nat, j: nat)
    requires i < |m.groups| && j < |m.groups[i].faces|
    requires m.hasTexCoords && m.groups[i].faces[j].texCoordIdx.None?
    ensures RenderTrace(m, texEnabled).faulted
  {
    RenderableIffNoFault(m, texEnabled, |m.groups|);
  }
}
