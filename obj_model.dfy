/**
 * The loader's objects: FaceGroup, OBJModel with the lists it fills in
 * place, and the cache of loaded models by file name (a static dictionary in
 * the original, an object passed in here).  Every method is proved against
 * the value-level functions of ObjParser and ObjRender through `Abs()`.
 */
module ObjModel {
  import opened Wrappers
  import opened ObjText
  import opened ObjFace
  import opened ObjParser
  import opened ObjRender

  /** A named list of faces with an optional material. */
  class FaceGroup {
    var mat: Option<Material>
    const groupName: string
    var faces: seq<Face>

    constructor (name: string)
      ensures groupName == name && mat == None && faces == []
    {
      groupName := name;
      mat := None;
      faces := [];
    }

    method SetMaterial(m: Material)
      modifies this
      ensures mat == Some(m) && faces == old(faces)
    {
      mat := Some(m);
    }

    method AddFace(f: Face)
      modifies this
      ensures faces == old(faces) + [f] && mat == old(mat)
    {
      faces := faces + [f];
    }

    ghost function Value(): GroupV
      reads this
    {
      GroupV(groupName, mat, faces)
    }
  }

  /** The values of a list of group objects, in order. */
  ghost function Values(gs: seq<FaceGroup>): (vs: seq<GroupV>)
    reads gs
    ensures |vs| == |gs|
  {
    if gs == [] then [] else Values(gs[..|gs| - 1]) + [gs[|gs| - 1].Value()]
  }

  /** Values lists each group's value at its position. */
  lemma {:induction false} ValuesAt(gs: seq<FaceGroup>)
    ensures |Values(gs)| == |gs| && forall j :: 0 <= j < |gs| ==> Values(gs)[j] == gs[j].Value()
    decreases |gs|
  {
    if gs != [] {
      ValuesAt(gs[..|gs| - 1]);
    }
  }

  lemma ValuesAppend(gs: seq<FaceGroup>, fg: FaceGroup)
    ensures Values(gs + [fg]) == Values(gs) + [fg.Value()]
  {
    assert (gs + [fg])[..|gs|] == gs;
  }

  /** Groups none of which changed have the values they had. */
  twostate lemma {:induction false} ValuesUnchanged(gs: seq<FaceGroup>)
    requires forall j :: 0 <= j < |gs| ==> unchanged(gs[j])
    ensures Values(gs) == old(Values(gs))
    decreases |gs|
  {
    if gs != [] {
      ValuesUnchanged(gs[..|gs| - 1]);
    }
  }

  /** ... and is determined by them. */
  lemma ValuesFrom(gs: seq<FaceGroup>, vs: seq<GroupV>)
    requires |vs| == |gs| && forall j :: 0 <= j < |gs| ==> vs[j] == gs[j].Value()
    ensures Values(gs) == vs
  {
    ValuesAt(gs);
  }

  /** A file the loader can open: the absolute path FileStream.Name reports
      for it and its characters. */
  datatype FileEntry = FileEntry(absolutePath: string, text: string)

  /** The file system as the loader sees it: OBJ files by the name passed to
      Load, material libraries by full path (what Material.ParseMaterials
      would return for each), and the platform's path separator. */
  datatype Env = Env(files: map<string, FileEntry>, libraries: map<string, seq<Material>>, separator: char)

  /** The process-wide `models` dictionary. */
  class ModelCache {
    var models: map<string, OBJModel>

    constructor ()
      ensures models == map[] && Valid()
    {
      models := map[];
    }

    /** Every cached model satisfies its invariant. */
    ghost predicate Valid()
      reads this, models.Values
    {
      forall f :: f in models ==> models[f].Valid()
    }
  }

  class OBJModel {
    var vertices: seq<Attr>
    var normals: seq<Attr>
    var texCoords: seq<Attr>
    /** A face list the loader declares and copies but never fills. */
    var faces: seq<Face>
    var faceGroups: seq<FaceGroup>
    var currFaceGroup: FaceGroup?
    var hasTexCoords: bool
    var hasNormals: bool
    var pathFileName: string
    var relativePath: string
    var texEnabled: bool
    /** Where currFaceGroup sits in faceGroups. */
    ghost var curIndex: nat
    /** Every group object this instance has held: what loading may change. */
    ghost var Groups: set<FaceGroup>

    /** Every group is in the footprint, and the current group is one of them
        and sits only at curIndex. */
    ghost predicate Valid()
      reads this
    {
      && (forall g :: g in faceGroups ==> g in Groups)
      && (currFaceGroup != null ==>
            && curIndex < |faceGroups| && faceGroups[curIndex] == currFaceGroup
            && forall j :: 0 <= j < |faceGroups| && j != curIndex ==> faceGroups[j] != currFaceGroup)
    }

    ghost function Abs(): ModelV
      reads this, faceGroups
    {
      ModelV(vertices, texCoords, normals, Values(faceGroups),
             if currFaceGroup == null then None else Some(curIndex), hasTexCoords, hasNormals)
    }

    /** The pools and flags alone: all that drawing one group depends on. */
    ghost function PoolView(): ModelV
      reads this
    {
      ModelV(vertices, texCoords, normals, [], None, hasTexCoords, hasNormals)
    }

    /** The fields no part of loading touches. */
    twostate predicate Kept()
      reads this
    {
      (pathFileName, relativePath, texEnabled, faces) == old((pathFileName, relativePath, texEnabled, faces))
    }

    /** The field initialisers and `pathFileName = filename`. */
    constructor (filename: string)
      ensures Valid() && Abs() == EmptyModel
      ensures pathFileName == filename && relativePath == "" && texEnabled && faces == []
      ensures Groups == {}
    {
      vertices := [];
      normals := [];
      texCoords := [];
      faces := [];
      faceGroups := [];
      Groups := {};
      currFaceGroup := null;
      hasTexCoords := false;
      hasNormals := false;
      pathFileName := filename;
      relativePath := "";
      texEnabled := true;
      curIndex := 0;
    }

    /** `new OBJModel(filename)`: construct, then load; a load that throws
        leaves no model. */
    static method Open(filename: string, env: Env, cache: ModelCache) returns (r: Result<OBJModel, LoadError>)
      requires cache.Valid()
      modifies cache
      ensures cache.Valid()
      ensures r.Ok? ==> fresh(r.value) && r.value.Valid()
      ensures filename in old(cache.models) ==>
        && r.Ok? && cache.models == old(cache.models)
        && var cached := cache.models[filename];
           r.value != cached && r.value.faceGroups == cached.faceGroups &&
           r.value.Abs() == cached.Abs() && r.value.pathFileName == cached.pathFileName &&
           r.value.relativePath == cached.relativePath && r.value.texEnabled == cached.texEnabled
      ensures filename !in old(cache.models) && filename !in env.files ==>
        r == Err(FileNotFound(filename)) && cache.models == old(cache.models)
      ensures filename !in old(cache.models) && filename in env.files ==>
        var entry := env.files[filename];
        var ctx := Context(filename, DirectoryOf(entry.absolutePath, env.separator), env.libraries);
        var result := Parse(EmptyModel, entry.text, ctx);
        && (result.Err? <==> r.Err?)
        && (result.Err? ==> r.error == result.error && cache.models == old(cache.models))
        && (result.Ok? ==> r.value.Abs() == result.value.model && r.value.pathFileName == filename &&
                           r.value.relativePath == ctx.relativePath && r.value.texEnabled &&
                           cache.models == old(cache.models)[filename := r.value])
    {
      var m := new OBJModel(filename);
      assert "" + DirectoryOf(if filename in env.files then env.files[filename].absolutePath else "", env.separator)
          == DirectoryOf(if filename in env.files then env.files[filename].absolutePath else "", env.separator);
      var loaded := m.Load(filename, env, cache);
      if loaded.Err? {
        return Err(loaded.error);
      }
      return Ok(m);
    }

    /** Copies every field of `model`: its lists and group objects become
        shared with this instance. */
    method LoadFromExistingModel(model: OBJModel)
      requires model.Valid()
      modifies this
      ensures Valid() && Abs() == old(model.Abs())
      ensures faceGroups == old(model.faceGroups) && currFaceGroup == old(model.currFaceGroup)
      ensures faces == old(model.faces) && pathFileName == old(model.pathFileName)
      ensures relativePath == old(model.relativePath) && texEnabled == old(model.texEnabled)
    {
      var vs, ns, ts, fs, gs, cur := model.vertices, model.normals, model.texCoords,
                                      model.faces, model.faceGroups, model.currFaceGroup;
      var hasT, hasN, path, rel, tex := model.hasTexCoords, model.hasNormals, model.pathFileName,
                                        model.relativePath, model.texEnabled;
      ghost var k, groups := model.curIndex, model.Groups;
      ghost var before := model.Abs();
      vertices, normals, texCoords, faces, faceGroups, currFaceGroup := vs, ns, ts, fs, gs, cur;
      hasTexCoords, hasNormals, pathFileName, relativePath, texEnabled := hasT, hasN, path, rel, tex;
      curIndex, Groups := k, groups;
      ValuesUnchanged(gs);
      assert Abs() == before;
    }

    /** A file name already in the cache is not read: this instance takes over
        the cached one's fields.  Otherwise the directory of the file's
        absolute path is appended to relativePath, the text is parsed line by
        line into this instance's lists, and on success the file name is
        registered with this instance. */
    method Load(filename: string, env: Env, cache: ModelCache) returns (r: Result<bool, LoadError>)
      requires Valid() && cache.Valid()
      modifies this, Groups, cache
      ensures Valid() && cache.Valid()
      ensures filename in old(cache.models) ==>
        && r == Ok(true) && cache.models == old(cache.models)
        && var model := cache.models[filename];
           faceGroups == model.faceGroups && currFaceGroup == model.currFaceGroup &&
           Abs() == model.Abs() && faces == model.faces && pathFileName == model.pathFileName &&
           relativePath == model.relativePath && texEnabled == model.texEnabled
      ensures filename !in old(cache.models) && filename !in env.files ==>
        && r == Err(FileNotFound(filename)) && cache.models == old(cache.models) && Abs() == old(Abs())
        && relativePath == old(relativePath) && pathFileName == old(pathFileName) && texEnabled == old(texEnabled)
      ensures filename !in old(cache.models) && filename in env.files ==>
        var entry := env.files[filename];
        var ctx := Context(old(pathFileName), old(relativePath) + DirectoryOf(entry.absolutePath, env.separator),
                           env.libraries);
        var result := Parse(old(Abs()), entry.text, ctx);
        && relativePath == ctx.relativePath && pathFileName == old(pathFileName) && texEnabled == old(texEnabled)
        && (result.Err? ==> r == Err(result.error) && cache.models == old(cache.models))
        && (result.Ok? ==> r == Ok(true) && Abs() == result.value.model &&
                           cache.models == old(cache.models)[filename := this])
    {
      if filename in cache.models {
        var model := cache.models[filename];
        LoadFromExistingModel(model);
        return Ok(true);
      }
      if filename !in env.files {
        return Err(FileNotFound(filename));
      }
      var entry := env.files[filename];
      var prefix := DirectoryPrefix(entry.absolutePath, env.separator);
      relativePath := relativePath + prefix;
      assert Abs() == old(Abs());
      var err := ReadAll(entry.text, env.libraries);
      if err.Some? {
        return Err(err.value);
      }
      cache.models := cache.models[filename := this];
      return Ok(true);
    }

    /** The loading loop: one iteration per line until the end of the text. */
    method ReadAll(text: string, libraries: map<string, seq<Material>>) returns (err: Option<LoadError>)
      requires Valid()
      modifies this, Groups
      ensures Valid() && Kept() && fresh(Groups - old(Groups))
      ensures var result := Parse(old(Abs()), text, Context(pathFileName, relativePath, libraries));
        && (result.Err? ==> err == Some(result.error))
        && (result.Ok? ==> err == None && Abs() == result.value.model)
    {
      ghost var ctx := Context(pathFileName, relativePath, libraries);
      ghost var total := Parse(Abs(), text, ctx);
      var pos := 0;
      var lineNumber: nat := 1;
      var materials: Option<seq<Material>> := None;
      while pos < |text|
        invariant pos <= |text| && Valid() && Kept()
        invariant fresh(Groups - old(Groups))
        invariant ParseFrom(Scan(Abs(), materials, lineNumber), text, pos, ctx) == total
        decreases |text| - pos
      {
        var step := Advance(text, pos, materials, lineNumber, libraries, total);
        if step.Err? {
          return Some(step.error);
        }
        materials, pos := step.value.0, step.value.1;
        lineNumber := lineNumber + 1;
      }
      return None;
    }

    /** One iteration of the loading loop, seen from the loop: the rest of
        the text, parsed from the new state, gives the same result. */
    method Advance(text: string, pos: nat, materials: Option<seq<Material>>, lineNumber: nat,
                   libraries: map<string, seq<Material>>, ghost total: Result<Scan, LoadError>)
      returns (r: Result<(Option<seq<Material>>, nat), LoadError>)
      requires pos < |text| && Valid()
      requires total == ParseFrom(Scan(Abs(), materials, lineNumber), text, pos,
                                  Context(pathFileName, relativePath, libraries))
      modifies this, Groups
      ensures Valid() && Kept() && fresh(Groups - old(Groups))
      ensures r.Err? ==> total == Err(r.error)
      ensures r.Ok? ==> pos < r.value.1 <= |text|
      ensures r.Ok? ==> total == ParseFrom(Scan(Abs(), r.value.0, lineNumber + 1), text, r.value.1,
                                           Context(pathFileName, relativePath, libraries))
    {
      r := Step(text, pos, materials, lineNumber, libraries);
    }

    /** One iteration of the loading loop: dispatch on the character at `pos`. */
    method Step(text: string, pos: nat, materials: Option<seq<Material>>, lineNumber: nat,
                libraries: map<string, seq<Material>>)
      returns (r: Result<(Option<seq<Material>>, nat), LoadError>)
      requires pos < |text| && Valid()
      modifies this, Groups
      ensures Valid() && Kept() && fresh(Groups - old(Groups))
      ensures var s := StepLine(Scan(old(Abs()), materials, lineNumber), text, pos,
                                Context(pathFileName, relativePath, libraries));
        && (r.Err? ==> s == Err(r.error))
        && (r.Ok? ==> s == Ok((Scan(Abs(), r.value.0, lineNumber + 1), r.value.1)))
    {
      var c := text[pos];
      var p := pos + 1;
      if c == 'g' {
        var q := ReadGroup(text, p);
        if q.Err? { return Err(q.error); }
        return Ok((materials, q.value));
      } else if c == 'v' {
        var q := ReadVertex(text, p);
        if q.Err? { return Err(q.error); }
        return Ok((materials, q.value));
      } else if c == 'f' {
        var q := ReadFace(text, p, lineNumber);
        if q.Err? { return Err(q.error); }
        return Ok((materials, q.value));
      } else if c == 'm' {
        var q := ReadMtllib(text, p, libraries);
        if q.Err? { return Err(q.error); }
        return Ok((Some(q.value.0), q.value.1));
      } else if c == 'u' {
        var q := ReadUsemtl(text, p, materials);
        if q.Err? { return Err(q.error); }
        return Ok((materials, q.value));
      } else if c != '\n' {
        return Ok((materials, ReadLine(text, p).next));
      } else {
        return Ok((materials, p));
      }
    }

    /** A `g` line: start a new current group unless the name is `default`. */
    method ReadGroup(text: string, p: nat) returns (r: Result<nat, LoadError>)
      requires p <= |text| && Valid()
      modifies this
      ensures Valid() && Kept() && fresh(Groups - old(Groups))
      ensures r.Err? ==> GroupLine(old(Abs()), text, p) == Err(r.error)
      ensures r.Ok? ==> GroupLine(old(Abs()), text, p) == Ok((Abs(), r.value))
    {
      var rl := ReadLine(text, p);
      if rl.line.None? { return Err(EndOfStream); }
      if |rl.line.value| == 0 { return Err(EmptyGroupLine); }
      var name := rl.line.value[1..];
      if name != "default" {
        AddGroup(name);
      }
      return Ok(rl.next);
    }

    /** A new empty group at the end of the list becomes the current one. */
    method AddGroup(name: string)
      requires Valid()
      modifies this
      ensures Valid() && Kept() && fresh(Groups - old(Groups))
      ensures Abs() == NewGroup(old(Abs()), name)
    {
      var gs := faceGroups;
      ghost var before := Values(gs);
      var fg := new FaceGroup(name);
      assert Values(gs) == before;
      faceGroups := gs + [fg];
      Groups := Groups + {fg};
      currFaceGroup := fg;
      curIndex := |gs|;
      ValuesAppend(gs, fg);
    }

    /** A line starting with `v`: a position, a texture coordinate, a normal,
        or a line that is skipped. */
    method ReadVertex(text: string, p: nat) returns (r: Result<nat, LoadError>)
      requires p <= |text| && Valid()
      modifies this
      ensures Valid() && Kept() && faceGroups == old(faceGroups) && Groups == old(Groups)
      ensures r.Err? ==> VertexLine(old(Abs()), text, p) == Err(r.error)
      ensures r.Ok? ==> VertexLine(old(Abs()), text, p) == Ok((Abs(), r.value))
    {
      if p == |text| {
        return Ok(p);
      }
      var c := text[p];
      if c == ' ' || c == '\t' || c == 't' || c == 'n' {
        var rl := ReadLine(text, p + 1);
        if rl.line.None? { return Err(EndOfStream); }
        var s := Split(rl.line.value, Separators);
        var k := if c == 't' then 2 else 3;
        if |s| < k { return Err(MissingToken); }
        var a := Attr(s[..k]);
        if c == 't' {
          texCoords := texCoords + [a];
          hasTexCoords := true;
        } else if c == 'n' {
          normals := normals + [a];
          hasNormals := true;
        } else {
          vertices := vertices + [a];
        }
        return Ok(rl.next);
      }
      return Ok(ReadLine(text, p + 1).next);
    }

    /** An `f` line: the face is read in the grammar the flags select, its
        indices are checked, and it is added to the current group. */
    method ReadFace(text: string, p: nat, lineNumber: nat) returns (r: Result<nat, LoadError>)
      requires p <= |text| && Valid()
      modifies faceGroups
      ensures Valid() && Kept()
      ensures r.Err? ==> FaceLineAt(old(Abs()), text, p, lineNumber, pathFileName) == Err(r.error)
      ensures r.Ok? ==> FaceLineAt(old(Abs()), text, p, lineNumber, pathFileName) == Ok((Abs(), r.value))
    {
      var rl := ReadLine(text, p);
      if rl.line.None? { return Err(EndOfStream); }
      var tokens := Split(rl.line.value, Separators);
      var face := FaceLine(VariantOf(hasTexCoords, hasNormals), tokens,
                           |vertices|, |texCoords|, |normals|, lineNumber, pathFileName);
      if face.Err? { return Err(face.error); }
      if currFaceGroup == null { return Err(NoCurrentGroup); }
      AppendFace(face.value);
      return Ok(rl.next);
    }

    /** Adds a face to the current group. */
    method AppendFace(f: Face)
      requires Valid() && currFaceGroup != null
      modifies currFaceGroup
      ensures Valid() && HasCurrent(old(Abs())) && Abs() == AddFaceToCurrent(old(Abs()), f)
    {
      ValuesAt(faceGroups);
      ghost var before := Values(faceGroups);
      currFaceGroup.AddFace(f);
      ValuesFrom(faceGroups, before[curIndex := currFaceGroup.Value()]);
    }

    /** A line starting with `m`: its second token, under relativePath, names
        the material library that becomes the current list. */
    method ReadMtllib(text: string, p: nat, libraries: map<string, seq<Material>>)
      returns (r: Result<(seq<Material>, nat), LoadError>)
      requires p <= |text|
      ensures r == MtllibLine(text, p, Context(pathFileName, relativePath, libraries))
    {
      var rl := ReadLine(text, p);
      if rl.line.None? { return Err(EndOfStream); }
      var s := Split(rl.line.value, Separators);
      if |s| < 2 { return Err(MissingToken); }
      var file := relativePath + s[1];
      if file !in libraries { return Err(LibraryNotFound(file)); }
      return Ok((libraries[file], rl.next));
    }

    /** A line starting with `u`: skip six characters, then bind every
        material of the current list whose name is the first token, in list
        order, to the current group. */
    method ReadUsemtl(text: string, p: nat, materials: Option<seq<Material>>) returns (r: Result<nat, LoadError>)
      requires p <= |text| && Valid()
      modifies faceGroups
      ensures Valid() && Kept()
      ensures r.Err? ==> UsemtlLine(old(Abs()), materials, text, p) == Err(r.error)
      ensures r.Ok? ==> UsemtlLine(old(Abs()), materials, text, p) == Ok((Abs(), r.value))
    {
      var q := if p + UsemtlSkip <= |text| then p + UsemtlSkip else |text|;
      var rl := ReadLine(text, q);
      if rl.line.None? { return Err(EndOfStream); }
      var s := Split(rl.line.value, Separators);
      if materials.Some? {
        var err := BindMaterial(materials.value, s);
        if err.Some? { return Err(err.value); }
      }
      return Ok(rl.next);
    }

    /** The `usemtl` loop: the first token is read as soon as the list is
        non-empty, and each exact match is bound to the current group. */
    method BindMaterial(list: seq<Material>, tokens: seq<string>) returns (err: Option<LoadError>)
      requires Valid()
      modifies currFaceGroup
      ensures Valid()
      ensures match UseMaterial(old(Abs()), Some(list), tokens)
        case Err(e) => err == Some(e)
        case Ok(m) => err == None && Abs() == m
    {
      if |list| == 0 { return None; }
      if |tokens| == 0 { return Some(MissingToken); }
      ValuesAt(faceGroups);
      ghost var before := Values(faceGroups);
      err := BindEach(list, tokens[0]);
      if err.Some? { return; }
      var fg := currFaceGroup;
      if fg != null {
        ValuesFrom(faceGroups, before[curIndex := fg.Value()]);
      } else {
        ValuesFrom(faceGroups, before);
      }
    }

    /** The loop itself: the last material named `name` ends up bound;
        a match with no current group throws. */
    method BindEach(list: seq<Material>, name: string) returns (err: Option<LoadError>)
      modifies currFaceGroup
      ensures err.Some? <==> LastMatch(list, name).Some? && currFaceGroup == null
      ensures err.Some? ==> err.value == NoCurrentGroup
      ensures currFaceGroup != null ==> currFaceGroup.faces == old(currFaceGroup.faces)
      ensures currFaceGroup != null ==>
        currFaceGroup.mat == if LastMatch(list, name).Some? then Some(list[LastMatch(list, name).value])
                             else old(currFaceGroup.mat)
    {
      var fg := currFaceGroup;
      for i := 0 to |list|
        invariant i > 0 && LastMatch(list[..i], name).Some? ==> fg != null
        invariant fg != null ==> fg.faces == old(fg.faces)
        invariant fg != null ==> fg.mat == if LastMatch(list[..i], name).Some?
                                           then Some(list[LastMatch(list[..i], name).value])
                                           else old(fg.mat)
      {
        assert list[..i + 1][..i] == list[..i];
        if list[i].matName == name {
          if fg == null {
            assert LastMatch(list[..i + 1], name).Some?;
            return Some(NoCurrentGroup);
          }
          fg.SetMaterial(list[i]);
        }
      }
      assert list[..|list|] == list;
      return None;
    }

    /** Every field but texEnabled keeps its value. */
    twostate predicate AllButTextures()
      reads this
    {
      && (vertices, normals, texCoords, faces, hasTexCoords, hasNormals)
         == old((vertices, normals, texCoords, faces, hasTexCoords, hasNormals))
      && (faceGroups, currFaceGroup, pathFileName, relativePath, curIndex, Groups)
         == old((faceGroups, currFaceGroup, pathFileName, relativePath, curIndex, Groups))
    }

    /** Turns texturing on; a model that could be rendered still can. */
    method ShowTextures()
      modifies this
      ensures texEnabled && AllButTextures()
      ensures Valid() == old(Valid()) && Abs() == old(Abs())
    {
      texEnabled := true;
    }

    /** Turns texturing off; a model that could be rendered still can. */
    method HideTextures()
      modifies this
      ensures !texEnabled && AllButTextures()
      ensures Valid() == old(Valid()) && Abs() == old(Abs())
    {
      texEnabled := false;
    }

    /** Draws every group in order; stops at the first call that throws. */
    method Render() returns (events: seq<Event>, faulted: bool)
      requires Valid()
      ensures Trace(events, faulted) == RenderTrace(Abs(), texEnabled)
    {
      ValuesAt(faceGroups);
      events, faulted := RenderGroups(faceGroups, Abs());
    }

    /** The group loop of Render over the groups `gs`, whose values are those of `m`. */
    method RenderGroups(gs: seq<FaceGroup>, ghost m: ModelV) returns (events: seq<Event>, faulted: bool)
      requires |m.groups| == |gs| && (forall j :: 0 <= j < |gs| ==> m.groups[j] == gs[j].Value())
      requires Pools(m) == PoolView()
      ensures Trace(events, faulted) == GroupsTrace(m, texEnabled, |gs|)
    {
      events, faulted := [], false;
      var i := 0;
      while i < |gs| && !faulted
        invariant i <= |gs| && Trace(events, faulted) == GroupsTrace(m, texEnabled, i)
      {
        var ge, gf := RenderGroup(gs[i]);
        GroupsAdvance(m, texEnabled, i, events, ge, gf);
        events, faulted := events + ge, gf;
        i := i + 1;
      }
      if faulted {
        GroupsFaultSticks(m, texEnabled, i, |gs|);
      }
    }

    /** One group: texturing and material, Begin, the faces, End. */
    method RenderGroup(fg: FaceGroup) returns (evs: seq<Event>, faulted: bool)
      ensures Trace(evs, faulted) == GroupTrace(PoolView(), fg.Value(), texEnabled)
    {
      ghost var m := PoolView();
      ghost var g := fg.Value();
      var texturing := hasTexCoords && texEnabled;
      evs := [];
      if texturing {
        evs := evs + [EnableTexture];
        if fg.mat.Some? {
          evs := evs + [ApplyMaterial(fg.mat.value)];
        }
      }
      assert evs == Prologue(m, g, texEnabled);
      var listFace := fg.faces;
      if |listFace| == 0 {
        return evs, true;
      }
      evs := evs + [Begin(if listFace[0].isQuad then Quads else Triangles)];
      GroupTraceUnfold(m, g, texEnabled);
      var body, bodyFaulted := RenderFaces(listFace);
      evs := evs + body;
      if bodyFaulted {
        return evs, true;
      }
      evs := evs + [End];
      if texturing {
        evs := evs + [DisableTexture];
      }
      return evs, false;
    }

    /** The faces of one group, in order. */
    method RenderFaces(listFace: seq<Face>) returns (evs: seq<Event>, faulted: bool)
      ensures Trace(evs, faulted) == FacesTrace(PoolView(), listFace, |listFace|)
    {
      ghost var m := PoolView();
      evs := [];
      for j := 0 to |listFace|
        invariant Trace(evs, false) == FacesTrace(m, listFace, j)
      {
        var fe, ff := RenderFace(listFace[j]);
        evs := evs + fe;
        if ff {
          FacesFaultSticks(m, listFace, j + 1, |listFace|);
          return evs, true;
        }
      }
      return evs, false;
    }

    /** One face: corners 0, 1 and 2, and corner 3 of a quad. */
    method RenderFace(f: Face) returns (evs: seq<Event>, faulted: bool)
      ensures Trace(evs, faulted) == FaceTrace(PoolView(), f)
    {
      ghost var m := PoolView();
      evs, faulted := RenderCorner(f, 0);
      DoneThen(CornerTrace(m, f, 0));
      assert Trace(evs, faulted) == CornersTrace(m, f, 1);
      if !faulted {
        var e, ff := RenderCorner(f, 1);
        evs, faulted := evs + e, ff;
      }
      assert Trace(evs, faulted) == CornersTrace(m, f, 2);
      if !faulted {
        var e, ff := RenderCorner(f, 2);
        evs, faulted := evs + e, ff;
      }
      assert Trace(evs, faulted) == CornersTrace(m, f, 3);
      if !faulted && f.isQuad {
        var e, ff := RenderCorner(f, 3);
        evs, faulted := evs + e, ff;
      }
    }

    /** One corner: texture coordinate, normal, position, as the flags say. */
    method RenderCorner(f: Face, k: nat) returns (evs: seq<Event>, faulted: bool)
      ensures Trace(evs, faulted) == CornerTrace(PoolView(), f, k)
    {
      evs := [];
      if hasTexCoords {
        var t := Lookup(texCoords, f.texCoordIdx, k);
        if t.None? { return evs, true; }
        evs := evs + [TexCoord(t.value)];
      }
      if hasNormals {
        var n := Lookup(normals, f.normalIdx, k);
        if n.None? { return evs, true; }
        evs := evs + [Normal(n.value)];
      }
      var v := Lookup(vertices, Some(f.vertIdx), k);
      if v.None? { return evs, true; }
      evs := evs + [Vertex(v.value)];
      return evs, false;
    }
  }
}
