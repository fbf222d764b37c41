/** The WebGL back end (src/backend_webgl.ts): it extends the JavaScript
    generator so that a vertex/fragment shader pair is compiled and linked
    once at setup, and re-bound (uniforms first, then `gl.useProgram`) every
    time the `vtx` intrinsic is invoked. Code is generated as JavaScript
    text, so every operation here builds a string or fails with the error
    the source throws. */
module WebGL {
  import opened Wrappers
  import opened Text
  import opened IR

  // ---------------------------------------------------------------------
  // Stand-ins for helpers of the JavaScript back end
  // ---------------------------------------------------------------------

  /** Variable holding a compiled program's code (`progsym`). */
  function ProgSym(id: nat): string {
    "q" + NatToString(id)
  }

  /** Name under which a persist is visible inside a stage (`persistsym`). */
  function PersistSym(id: nat): string {
    "p" + NatToString(id)
  }

  /** A JavaScript string literal for a name made of letters and digits
      (`emit_js_string`). */
  function JsString(s: string): string {
    "\"" + s + "\""
  }

  function Paren(e: string): string {
    "(" + e + ")"
  }

  /** `emit_js_var(name, value, true)`. */
  function JsVar(name: string, value: string): string {
    "var " + name + " = " + value + ";"
  }

  /** `emit_js_fun(null, [], [], body, false)`: an anonymous function of no
      arguments. */
  function JsFun(body: string): string {
    "function () {\n" + body + "\n}"
  }

  // ---------------------------------------------------------------------
  // Names (src/backend_webgl.ts:34-42)
  // ---------------------------------------------------------------------

  /** JavaScript variable for the linked shader program of vertex stage
      `progid`. */
  function ShaderSym(progid: nat): string {
    "s" + NatToString(progid)
  }

  /** JavaScript variable for the uniform location of persist `escid`. */
  function LocSym(escid: nat): string {
    "l" + NatToString(escid)
  }

  /** Shader names are "s" followed by the id in decimal, and two of them
      coincide exactly when the ids do. */
  lemma {:induction false} ShaderSymInjective(a: nat, b: nat)
    ensures ShaderSym(a) == ShaderSym(b) <==> a == b
    ensures ShaderSym(a)[0] == 's' && ParseDecimal(ShaderSym(a)[1..]) == a
  {
    assert ShaderSym(a)[1..] == NatToString(a);
    ParseNatToString(a);
    if ShaderSym(a) == ShaderSym(b) {
      assert ShaderSym(b)[1..] == NatToString(b);
      NatToStringInjective(a, b);
    }
  }

  /** Location names are "l" followed by the id in decimal, and two of them
      coincide exactly when the ids do. */
  lemma {:induction false} LocSymInjective(a: nat, b: nat)
    ensures LocSym(a) == LocSym(b) <==> a == b
    ensures LocSym(a)[0] == 'l' && ParseDecimal(LocSym(a)[1..]) == a
  {
    assert LocSym(a)[1..] == NatToString(a);
    ParseNatToString(a);
    if LocSym(a) == LocSym(b) {
      assert LocSym(b)[1..] == NatToString(b);
      NatToStringInjective(a, b);
    }
  }

  /** No shader name is ever a location name. */
  lemma ShaderSymNotLocSym(a: nat, b: nat)
    ensures ShaderSym(a) != LocSym(b)
  {
    assert ShaderSym(a)[0] != LocSym(b)[0];
  }

  // ---------------------------------------------------------------------
  // Pairing a vertex program with its fragment program
  // (src/backend_webgl.ts:44-55)
  // ---------------------------------------------------------------------

  /** The vertex program and the program its single subprogram id names.
      The source does not dereference the fragment here, so an absent
      fragment is carried as `None` and only fails where it is used. */
  datatype ProgPair = ProgPair(vertex: Prog, fragment: Option<Prog>)

  function GetProgPair(ir: CompilerIR, progid: nat): (r: Result<ProgPair, Err>)
    ensures r.Success? <==>
      ProgAt(ir, progid).Some? && |ProgAt(ir, progid).value.subprograms| == 1
    ensures r.Success? ==>
      && r.value.vertex == ProgAt(ir, progid).value
      && r.value.fragment == ProgAt(ir, r.value.vertex.subprograms[0])
    ensures ProgAt(ir, progid).None? ==> r == Failure(Undefined("progs", progid))
    ensures ProgAt(ir, progid).Some? && |ProgAt(ir, progid).value.subprograms| != 1 ==>
      r == Failure(PairingViolation)
  {
    match ProgAt(ir, progid)
    case None => Failure(Undefined("progs", progid))
    case Some(vertex) =>
      if |vertex.subprograms| > 1 || |vertex.subprograms| < 1 then
        Failure(PairingViolation)
      else
        Success(ProgPair(vertex, ProgAt(ir, vertex.subprograms[0])))
  }

  // ---------------------------------------------------------------------
  // Setup: compile, link, and look up uniform locations
  // (src/backend_webgl.ts:57-74)
  // ---------------------------------------------------------------------

  /** `var s<v> = get_shader(gl, q<v>, q<f>);` */
  function SetupDecl(vid: nat, fid: nat): string {
    "var " + ShaderSym(vid) + " = get_shader(gl, " + ProgSym(vid) + ", " + ProgSym(fid) + ");"
  }

  /** `var l<e> = gl.getUniformLocation(s<v>, "p<e>");` */
  function LocationDecl(vid: nat, escid: nat): string {
    "var " + LocSym(escid) + " = gl.getUniformLocation(" + ShaderSym(vid) + ", " +
      JsString(PersistSym(escid)) + ");"
  }

  /** The location lookups, one line per persist, accumulated as the source
      loop does. */
  function LocationText(vid: nat, persist: seq<PersistEntry>): string
    decreases |persist|
  {
    if persist == [] then ""
    else LocationDecl(vid, persist[0].id) + "\n" + LocationText(vid, persist[1..])
  }

  function EmitShaderSetup(ir: CompilerIR, progid: nat): (r: Result<string, Err>)
    ensures GetProgPair(ir, progid).Failure? ==> r == Failure(GetProgPair(ir, progid).error)
    ensures r.Success? <==>
      GetProgPair(ir, progid).Success? && GetProgPair(ir, progid).value.fragment.Some?
  {
    var pair :- GetProgPair(ir, progid);
    match pair.fragment
    case None => Failure(Undefined("progs", pair.vertex.subprograms[0]))
    case Some(fragment) =>
      var vid := pair.vertex.id;
      Success(SetupText(vid, fragment.id, pair.vertex.persist))
  }

  /** The setup text's lines, as the reference reading of the setup. */
  function SetupLines(vid: nat, fid: nat, persist: seq<PersistEntry>): (lines: seq<string>)
    ensures |lines| == 1 + |persist|
  {
    [SetupDecl(vid, fid)] + seq(|persist|, k requires 0 <= k < |persist| => LocationDecl(vid, persist[k].id))
  }

  lemma SetupDeclNoNewline(vid: nat, fid: nat)
    ensures NoNewline(SetupDecl(vid, fid))
  {
    NatToStringNoNewline(vid);
    NatToStringNoNewline(fid);
  }

  lemma LocationDeclNoNewline(vid: nat, escid: nat)
    ensures NoNewline(LocationDecl(vid, escid))
  {
    NatToStringNoNewline(vid);
    NatToStringNoNewline(escid);
  }

  lemma {:induction false} LocationTextIsTerminated(vid: nat, persist: seq<PersistEntry>)
    ensures LocationText(vid, persist) ==
      Terminated(seq(|persist|, k requires 0 <= k < |persist| => LocationDecl(vid, persist[k].id)))
    decreases |persist|
  {
    var lines := seq(|persist|, k requires 0 <= k < |persist| => LocationDecl(vid, persist[k].id));
    if persist != [] {
      LocationTextIsTerminated(vid, persist[1..]);
      assert lines[1..] ==
        seq(|persist[1..]|, k requires 0 <= k < |persist[1..]| => LocationDecl(vid, persist[1..][k].id));
    }
  }

  /** The setup text of a vertex program `vid` linked with fragment `fid`. */
  function SetupText(vid: nat, fid: nat, persist: seq<PersistEntry>): string {
    SetupDecl(vid, fid) + "\n" + LocationText(vid, persist)
  }

  /** The setup text is its lines, each ended by a newline, so setups
      joined one after another stay one declaration per line. */
  lemma SetupTextTerminated(vid: nat, fid: nat, persist: seq<PersistEntry>)
    ensures SetupText(vid, fid, persist) == Terminated(SetupLines(vid, fid, persist))
  {
    var lines := SetupLines(vid, fid, persist);
    LocationTextIsTerminated(vid, persist);
    assert lines[1..] == seq(|persist|, k requires 0 <= k < |persist| => LocationDecl(vid, persist[k].id));
  }

  /** Splitting the setup text gives exactly its lines back. */
  lemma SetupTextLines(vid: nat, fid: nat, persist: seq<PersistEntry>)
    ensures SplitLines(SetupText(vid, fid, persist)) == SetupLines(vid, fid, persist)
  {
    var lines := SetupLines(vid, fid, persist);
    SetupTextTerminated(vid, fid, persist);
    SetupDeclNoNewline(vid, fid);
    forall k | 0 <= k < |lines|
      ensures NoNewline(lines[k])
    {
      if k > 0 {
        LocationDeclNoNewline(vid, persist[k - 1].id);
      }
    }
    SplitTerminated(lines);
  }

  /** Read back line by line, a successful setup is exactly one `get_shader`
      declaration for the vertex program and its fragment, followed by one
      `getUniformLocation` declaration per persist of the vertex program,
      in declaration order, and nothing else. */
  lemma SetupLineStructure(ir: CompilerIR, progid: nat)
    requires EmitShaderSetup(ir, progid).Success?
    ensures var pair := GetProgPair(ir, progid).value;
      SplitLines(EmitShaderSetup(ir, progid).value) ==
        SetupLines(pair.vertex.id, pair.fragment.value.id, pair.vertex.persist)
    ensures var pair := GetProgPair(ir, progid).value;
      EmitShaderSetup(ir, progid).value ==
        Terminated(SetupLines(pair.vertex.id, pair.fragment.value.id, pair.vertex.persist))
  {
    var pair := GetProgPair(ir, progid).value;
    SetupTextTerminated(pair.vertex.id, pair.fragment.value.id, pair.vertex.persist);
    SetupTextLines(pair.vertex.id, pair.fragment.value.id, pair.vertex.persist);
  }

  /** The variables a setup declares: the shader, then one location per
      persist. */
  function DeclaredNames(vid: nat, persist: seq<PersistEntry>): (names: seq<string>)
    ensures |names| == 1 + |persist|
  {
    [ShaderSym(vid)] + seq(|persist|, k requires 0 <= k < |persist| => LocSym(persist[k].id))
  }

  predicate DistinctIds(persist: seq<PersistEntry>) {
    forall j, k :: 0 <= j < k < |persist| ==> persist[j].id != persist[k].id
  }

  /** A setup never declares one variable twice exactly when the persists
      have distinct escape ids. */
  lemma DeclaredNamesDistinct(vid: nat, persist: seq<PersistEntry>)
    ensures DistinctIds(persist) <==>
      forall j, k :: 0 <= j < k < 1 + |persist| ==> DeclaredNames(vid, persist)[j] != DeclaredNames(vid, persist)[k]
  {
    var names := DeclaredNames(vid, persist);
    forall k | 0 < k < |names|
      ensures names[0] != names[k]
    {
      ShaderSymNotLocSym(vid, persist[k - 1].id);
    }
    forall j, k | 0 < j < k < |names|
      ensures names[j] != names[k] <==> persist[j - 1].id != persist[k - 1].id
    {
      LocSymInjective(persist[j - 1].id, persist[k - 1].id);
    }
    if !DistinctIds(persist) {
      var j, k :| 0 <= j < k < |persist| && persist[j].id == persist[k].id;
      assert names[j + 1] == names[k + 1];
    }
  }

  // ---------------------------------------------------------------------
  // Binding: bind every uniform, then make the program current
  // (src/backend_webgl.ts:76-109)
  // ---------------------------------------------------------------------

  /** `gl.uniform1i(l<e>, (value))` */
  function BindingCall(escid: nat, value: string): string {
    "gl.uniform1i(" + LocSym(escid) + ", " + Paren(value) + ")"
  }

  /** `gl.useProgram(s<v>)` */
  function UseProgram(vid: nat): string {
    "gl.useProgram(" + ShaderSym(vid) + ")"
  }

  /** A persist can be bound when its value compiles and it is an integer. */
  predicate Bindable(ir: CompilerIR, emit: Node -> Result<string, Err>, e: PersistEntry) {
    emit(e.body).Success? && TypeOf(ir, e.body.id) == Some(INT)
  }

  /** The binding of one persist: the value is compiled first, then the
      binding call is chosen by the value's type. */
  function BindOne(ir: CompilerIR, emit: Node -> Result<string, Err>, e: PersistEntry): (r: Result<string, Err>)
    ensures r.Success? <==> Bindable(ir, emit, e)
    ensures r.Success? ==> r.value == BindingCall(e.id, emit(e.body).value)
    ensures emit(e.body).Failure? ==> r == Failure(emit(e.body).error)
    ensures emit(e.body).Success? && TypeOf(ir, e.body.id) == None ==>
      r == Failure(Undefined("type_table", e.body.id))
    ensures emit(e.body).Success? && TypeOf(ir, e.body.id).Some? ==>
      var t := TypeOf(ir, e.body.id).value;
      && (t.PrimType? && t.name != "Int" ==> r == Failure(NonIntUniform))
      && (!t.PrimType? ==> r == Failure(NonPrimitiveUniform))
  {
    var value :- emit(e.body);
    match TypeOf(ir, e.body.id)
    case None => Failure(Undefined("type_table", e.body.id))
    case Some(t) =>
      if t.PrimType? then
        if t.name == "Int" then Success(BindingCall(e.id, value))
        else Failure(NonIntUniform)
      else Failure(NonPrimitiveUniform)
  }

  /** The binding calls of the persists, in declaration order, stopping at
      the first persist that cannot be bound. */
  function BindUniforms(ir: CompilerIR, emit: Node -> Result<string, Err>, persist: seq<PersistEntry>): (r: Result<seq<string>, Err>)
    ensures r.Success? <==> forall k :: 0 <= k < |persist| ==> Bindable(ir, emit, persist[k])
    ensures r.Success? ==>
      && |r.value| == |persist|
      && forall k :: 0 <= k < |persist| ==> r.value[k] == BindingCall(persist[k].id, emit(persist[k].body).value)
    decreases |persist|
  {
    if persist == [] then Success([])
    else
      var call :- BindOne(ir, emit, persist[0]);
      var rest :- BindUniforms(ir, emit, persist[1..]);
      assert forall k :: 1 <= k < |persist| ==> persist[1..][k - 1] == persist[k];
      Success([call] + rest)
  }

  /** The first persist that cannot be bound decides the error. */
  lemma {:induction false} BindUniformsFirstFailure(ir: CompilerIR, emit: Node -> Result<string, Err>,
      persist: seq<PersistEntry>, k: nat)
    requires k < |persist|
    requires forall j :: 0 <= j < k ==> Bindable(ir, emit, persist[j])
    requires !Bindable(ir, emit, persist[k])
    ensures BindUniforms(ir, emit, persist) == Failure(BindOne(ir, emit, persist[k]).error)
    decreases k
  {
    if k > 0 {
      assert BindOne(ir, emit, persist[0]).Success?;
      BindUniformsFirstFailure(ir, emit, persist[1..], k - 1);
    }
  }

  /** The binding text: each call followed by ",\n", then the program is
      made current. */
  function BindingText(calls: seq<string>, vid: nat): string {
    Concat(seq(|calls|, k requires 0 <= k < |calls| => calls[k] + ",\n")) + UseProgram(vid)
  }

  function EmitShaderBinding(ir: CompilerIR, emit: Node -> Result<string, Err>, progid: nat): (r: Result<string, Err>)
    ensures GetProgPair(ir, progid).Failure? ==> r == Failure(GetProgPair(ir, progid).error)
    ensures r.Success? <==>
      && GetProgPair(ir, progid).Success?
      && forall k :: 0 <= k < |GetProgPair(ir, progid).value.vertex.persist| ==>
           Bindable(ir, emit, GetProgPair(ir, progid).value.vertex.persist[k])
  {
    var pair :- GetProgPair(ir, progid);
    var calls :- BindUniforms(ir, emit, pair.vertex.persist);
    Success(BindingText(calls, pair.vertex.id))
  }

  /** A successful binding always ends by making the vertex program's
      linked shader current, and with no persists it is only that call. */
  lemma BindingEndsWithUseProgram(ir: CompilerIR, emit: Node -> Result<string, Err>, progid: nat)
    requires EmitShaderBinding(ir, emit, progid).Success?
    ensures var out := EmitShaderBinding(ir, emit, progid).value;
      var vertex := ProgAt(ir, progid).value;
      var use := UseProgram(vertex.id);
      && |use| <= |out|
      && out[|out| - |use|..] == use
      && (vertex.persist == [] ==> out == use)
  {
  }

  /** The binding calls appear in persist declaration order, one per
      persist, each binding that persist's location to its compiled value. */
  lemma BindingContents(ir: CompilerIR, emit: Node -> Result<string, Err>, progid: nat)
    requires EmitShaderBinding(ir, emit, progid).Success?
    ensures var vertex := ProgAt(ir, progid).value;
      var persist := vertex.persist;
      EmitShaderBinding(ir, emit, progid).value ==
        Concat(seq(|persist|, k requires 0 <= k < |persist| =>
          BindingCall(persist[k].id, emit(persist[k].body).value) + ",\n")) + UseProgram(vertex.id)
  {
    var vertex := ProgAt(ir, progid).value;
    var persist := vertex.persist;
    var calls := BindUniforms(ir, emit, persist).value;
    assert seq(|calls|, k requires 0 <= k < |calls| => calls[k] + ",\n") ==
      seq(|persist|, k requires 0 <= k < |persist| => BindingCall(persist[k].id, emit(persist[k].body).value) + ",\n");
  }

  /** Neither setup nor binding produces any output for a vertex program
      without exactly one subprogram. */
  lemma PairingFailureIsFatal(ir: CompilerIR, emit: Node -> Result<string, Err>, progid: nat)
    requires ProgAt(ir, progid).Some? && |ProgAt(ir, progid).value.subprograms| != 1
    ensures EmitShaderSetup(ir, progid) == Failure(PairingViolation)
    ensures EmitShaderBinding(ir, emit, progid) == Failure(PairingViolation)
  {
  }

  // ---------------------------------------------------------------------
  // The `vtx` intrinsic (src/backend_webgl.ts:112-135)
  // ---------------------------------------------------------------------

  /** A call of the `vtx` intrinsic (the source's `vtx_expr` test). */
  predicate IsVtxCall(tree: Node) {
    tree.Call? && tree.fn.Lookup? && tree.fn.ident == "vtx"
  }

  /** The call rule of the WebGL generator: `vtx` of a literal quote becomes
      that quote's binding code; every other call goes to the JavaScript
      rules unchanged. */
  function VisitCall(ir: CompilerIR, emit: Node -> Result<string, Err>,
      jsRules: Node -> Result<string, Err>, tree: Node): (r: Result<string, Err>)
    requires tree.Call?
    ensures !IsVtxCall(tree) ==> r == jsRules(tree)
    ensures IsVtxCall(tree) && |tree.args| > 0 && tree.args[0].Quote? ==>
      r == EmitShaderBinding(ir, emit, tree.args[0].id)
    ensures IsVtxCall(tree) && |tree.args| > 0 && !tree.args[0].Quote? ==> r == Failure(DynamicVtx)
    ensures IsVtxCall(tree) && |tree.args| == 0 ==> r == Failure(Undefined("args", 0))
  {
    if IsVtxCall(tree) then
      if |tree.args| == 0 then Failure(Undefined("args", 0))
      else if tree.args[0].Quote? then EmitShaderBinding(ir, emit, tree.args[0].id)
      else Failure(DynamicVtx)
    else jsRules(tree)
  }

  /** A `vtx` call on a literal quote that names a well-paired shader with
      integer persists compiles to binding text ending in that shader's
      `gl.useProgram`; a quote without exactly one subprogram fails the
      pairing check instead. */
  lemma VtxCallBindsQuote(ir: CompilerIR, emit: Node -> Result<string, Err>,
      jsRules: Node -> Result<string, Err>, tree: Node)
    requires IsVtxCall(tree) && |tree.args| > 0 && tree.args[0].Quote?
    requires ProgAt(ir, tree.args[0].id).Some?
    ensures var vertex := ProgAt(ir, tree.args[0].id).value;
      var r := VisitCall(ir, emit, jsRules, tree);
      && (|vertex.subprograms| != 1 ==> r == Failure(PairingViolation))
      && (|vertex.subprograms| == 1 && (forall k :: 0 <= k < |vertex.persist| ==> Bindable(ir, emit, vertex.persist[k])) ==>
            r.Success? && |UseProgram(vertex.id)| <= |r.value| &&
            r.value[|r.value| - |UseProgram(vertex.id)|..] == UseProgram(vertex.id))
  {
    var vertex := ProgAt(ir, tree.args[0].id).value;
    if |vertex.subprograms| == 1 && (forall k :: 0 <= k < |vertex.persist| ==> Bindable(ir, emit, vertex.persist[k])) {
      BindingEndsWithUseProgram(ir, emit, tree.args[0].id);
    }
  }

  // ---------------------------------------------------------------------
  // Whole-program emission (src/backend_webgl.ts:147-201)
  // ---------------------------------------------------------------------

  /** The program and procedure compilers whole-program emission delegates
      to: the GLSL program compiler, and the JavaScript program and
      procedure compilers. (The expression compiler is the `emit` parameter
      of `VisitCall` and the binding functions.) */
  datatype Collaborators = Collaborators(
    glslProg: nat -> Result<string, Err>,
    jsProg: (Prog, seq<Option<Proc>>) -> Result<string, Err>,
    jsProc: Option<Proc> -> Result<string, Err>)

  /** The procedures quoted inside program `progid` (`ir.quoted_procs`);
      ids without a procedure are passed along as absent. */
  function QuotedProcs(ir: CompilerIR, progid: nat): (r: Result<seq<Option<Proc>>, Err>)
    ensures r.Success? <==> progid in ir.quotedProcs
    ensures r.Success? ==>
      && |r.value| == |ir.quotedProcs[progid]|
      && forall k :: 0 <= k < |r.value| ==> r.value[k] == ProcAt(ir, ir.quotedProcs[progid][k])
  {
    if progid !in ir.quotedProcs then Failure(Undefined("quoted_procs", progid))
    else
      var ids := ir.quotedProcs[progid];
      Success(seq(|ids|, k requires 0 <= k < |ids| => ProcAt(ir, ids[k])))
  }

  /** The compiled code of one program: shader programs go through the GLSL
      compiler and all others through the JavaScript one. */
  function ProgCode(ir: CompilerIR, c: Collaborators, p: Prog): (r: Result<string, Err>)
    ensures p.id !in ir.quotedProcs ==> r == Failure(Undefined("quoted_procs", p.id))
    ensures p.id in ir.quotedProcs && IsShader(p) ==> r == c.glslProg(p.id)
    ensures p.id in ir.quotedProcs && !IsShader(p) ==> r == c.jsProg(p, QuotedProcs(ir, p.id).value)
  {
    var procs :- QuotedProcs(ir, p.id);
    if IsShader(p) then c.glslProg(p.id) else c.jsProg(p, procs)
  }

  /** One declaration per present program, in the order given (the source
      walks the program table and skips absent slots; see `Present`). */
  function ProgDecls(ir: CompilerIR, c: Collaborators, ps: seq<Prog>): (r: Result<seq<string>, Err>)
    ensures r.Success? <==> forall k :: 0 <= k < |ps| ==> ProgCode(ir, c, ps[k]).Success?
    ensures r.Success? ==>
      && |r.value| == |ps|
      && forall k :: 0 <= k < |ps| ==> r.value[k] == JsVar(ProgSym(ps[k].id), ProgCode(ir, c, ps[k]).value)
    decreases |ps|
  {
    if ps == [] then Success([])
    else
      var code :- ProgCode(ir, c, ps[0]);
      var rest :- ProgDecls(ir, c, ps[1..]);
      assert forall k :: 1 <= k < |ps| ==> ps[1..][k - 1] == ps[k];
      Success([JsVar(ProgSym(ps[0].id), code)] + rest)
  }

  /** The programs that get setup code: present, shader, top-level. */
  function SetupProgs(ir: CompilerIR, ps: seq<Prog>): (r: seq<Prog>)
    decreases |ps|
  {
    if ps == [] then []
    else
      var rest := SetupProgs(ir, ps[1..]);
      if IsShader(ps[0]) && IsTopLevel(ir, ps[0].id) then [ps[0]] + rest else rest
  }

  /** A program gets setup code exactly when it is present, annotated as a
      shader, and has no containing program; the order is table order. */
  lemma {:induction false} SetupProgsSelection(ir: CompilerIR, ps: seq<Prog>, p: Prog)
    ensures p in SetupProgs(ir, ps) <==> p in ps && IsShader(p) && IsTopLevel(ir, p.id)
    ensures forall q :: q in SetupProgs(ir, ps) ==> IsShader(q) && IsTopLevel(ir, q.id)
    decreases |ps|
  {
    if ps != [] {
      SetupProgsSelection(ir, ps[1..], p);
    }
  }

  /** Selection keeps table order: selecting from two stretches of the
      table one after the other gives the selections one after the other. */
  lemma {:induction false} SetupProgsAppend(ir: CompilerIR, a: seq<Prog>, b: seq<Prog>)
    ensures SetupProgs(ir, a + b) == SetupProgs(ir, a) + SetupProgs(ir, b)
    decreases |a|
  {
    if a == [] {
      assert a + b == b;
    } else {
      assert (a + b)[0] == a[0];
      assert (a + b)[1..] == a[1..] + b;
      SetupProgsAppend(ir, a[1..], b);
    }
  }

  /** The setup parts of the given programs, in order; the first failing
      setup aborts. The source fuses this walk with the selection of
      `SetupProgs`, which has no effects, so selecting first is the same. */
  function SetupParts(ir: CompilerIR, targets: seq<Prog>): (r: Result<seq<string>, Err>)
    ensures r.Success? <==> forall k :: 0 <= k < |targets| ==> EmitShaderSetup(ir, targets[k].id).Success?
    ensures r.Success? ==>
      && |r.value| == |targets|
      && forall k :: 0 <= k < |targets| ==> EmitShaderSetup(ir, targets[k].id) == Success(r.value[k])
    decreases |targets|
  {
    if targets == [] then Success([])
    else
      var setup :- EmitShaderSetup(ir, targets[0].id);
      var rest :- SetupParts(ir, targets[1..]);
      assert forall k :: 1 <= k < |targets| ==> targets[1..][k - 1] == targets[k];
      Success([setup] + rest)
  }

  /** The top-level procedures, compiled in order. */
  function ToplevelProcs(ir: CompilerIR, c: Collaborators, ids: seq<nat>): (r: Result<seq<string>, Err>)
    ensures r.Success? <==> forall k :: 0 <= k < |ids| ==> c.jsProc(ProcAt(ir, ids[k])).Success?
    ensures r.Success? ==>
      && |r.value| == |ids|
      && forall k :: 0 <= k < |ids| ==> c.jsProc(ProcAt(ir, ids[k])) == Success(r.value[k])
    decreases |ids|
  {
    if ids == [] then Success([])
    else
      var code :- c.jsProc(ProcAt(ir, ids[0]));
      var rest :- ToplevelProcs(ir, c, ids[1..]);
      assert forall k :: 1 <= k < |ids| ==> ids[1..][k - 1] == ids[k];
      Success([code] + rest)
  }

  /** The generated JavaScript: program declarations, top-level
      procedures, then an immediately invoked function that runs the setup
      and returns the compiled main function as the per-frame callback. */
  function WebglCompile(ir: CompilerIR, c: Collaborators): (r: Result<string, Err>)
    ensures r.Success? <==>
      && ProgDecls(ir, c, Present(ir.progs)).Success?
      && ToplevelProcs(ir, c, ir.toplevelProcs).Success?
      && SetupParts(ir, SetupProgs(ir, Present(ir.progs))).Success?
      && c.jsProc(Some(ir.main)).Success?
  {
    var decls :- ProgDecls(ir, c, Present(ir.progs));
    var procs :- ToplevelProcs(ir, c, ir.toplevelProcs);
    var setups :- SetupParts(ir, SetupProgs(ir, Present(ir.progs)));
    var main :- c.jsProc(Some(ir.main));
    Success(Terminated(decls) + Terminated(procs) +
      JsFun(Concat(setups) + "return /* render */ " + main + ";") + "()")
  }

  /** The layout of the generated JavaScript: one declaration per present
      program in table order, holding GLSL code for shader programs and
      JavaScript code for the others; then the top-level procedures; then a
      wrapper whose body is the setup of each top-level shader program, in
      table order, followed by the return of the compiled main function.
      The declarations and procedures together form one block of
      newline-terminated lines. */
  lemma CompileLayout(ir: CompilerIR, c: Collaborators)
    requires WebglCompile(ir, c).Success?
    ensures var ps := Present(ir.progs);
      var targets := SetupProgs(ir, ps);
      var decls := ProgDecls(ir, c, ps).value;
      var setups := SetupParts(ir, targets).value;
      && |decls| == |ps|
      && (forall k :: 0 <= k < |ps| ==>
            ps[k].id in ir.quotedProcs &&
            decls[k] == JsVar(ProgSym(ps[k].id),
              (if IsShader(ps[k]) then c.glslProg(ps[k].id)
               else c.jsProg(ps[k], QuotedProcs(ir, ps[k].id).value)).value))
      && |setups| == |targets|
      && (forall k :: 0 <= k < |targets| ==> EmitShaderSetup(ir, targets[k].id) == Success(setups[k]))
      && WebglCompile(ir, c).value ==
           Terminated(decls) + Terminated(ToplevelProcs(ir, c, ir.toplevelProcs).value) +
           JsFun(Concat(setups) + "return /* render */ " + c.jsProc(Some(ir.main)).value + ";") + "()"
    ensures var ps := Present(ir.progs);
      var decls := ProgDecls(ir, c, ps).value;
      var procs := ToplevelProcs(ir, c, ir.toplevelProcs).value;
      var setups := SetupParts(ir, SetupProgs(ir, ps)).value;
      WebglCompile(ir, c).value ==
        Terminated(decls + procs) +
        JsFun(Concat(setups) + "return /* render */ " + c.jsProc(Some(ir.main)).value + ";") + "()"
  {
    var ps := Present(ir.progs);
    TerminatedAppend(ProgDecls(ir, c, ps).value, ToplevelProcs(ir, c, ir.toplevelProcs).value);
    forall k | 0 <= k < |ps|
      ensures ps[k].id in ir.quotedProcs
    {
      assert ProgCode(ir, c, ps[k]).Success?;
    }
  }

  /** In a well-formed IR every top-level shader program pairs up with a
      present fragment program, so its setup succeeds: it links the program
      with its child under the program's own shader name and looks up the
      program's persists (read line by line with `SetupTextLines`). */
  lemma WellFormedSetupSucceeds(ir: CompilerIR, progid: nat)
    requires WellFormed(ir)
    requires ProgAt(ir, progid).Some? && IsShader(ProgAt(ir, progid).value)
    requires IsTopLevel(ir, progid)
    ensures var vertex := ProgAt(ir, progid).value;
      EmitShaderSetup(ir, progid) == Success(SetupText(progid, vertex.subprograms[0], vertex.persist))
  {
    var vertex := ProgAt(ir, progid).value;
    var fragment := ProgAt(ir, vertex.subprograms[0]).value;
    assert vertex.id == progid;
    assert fragment.id == vertex.subprograms[0];
  }

  /** In a well-formed IR the setup selection never fails: every program it
      picks is a top-level shader program, and those pair up. */
  lemma WellFormedSetupPartsSucceed(ir: CompilerIR)
    requires WellFormed(ir)
    ensures SetupParts(ir, SetupProgs(ir, Present(ir.progs))).Success?
  {
    var targets := SetupProgs(ir, Present(ir.progs));
    forall k | 0 <= k < |targets|
      ensures EmitShaderSetup(ir, targets[k].id).Success?
    {
      var p := targets[k];
      SetupProgsSelection(ir, Present(ir.progs), p);
      PresentMembership(ir.progs, p);
      var i :| 0 <= i < |ir.progs| && ir.progs[i] == Some(p);
      assert p.id == i;
      WellFormedSetupSucceeds(ir, p.id);
    }
  }

  /** A vertex stage 0 with its nested fragment stage 1, both annotated
      "s": the shape the WebGL back end is written for. */
  function PairExample(): CompilerIR {
    var body := Literal(0, "int");
    CompilerIR(
      [Some(Prog(0, "s", [1], [], body)), Some(Prog(1, "s", [], [], body))],
      [], map[1 := 0], map[0 := [], 1 := []], [], Proc(2, [], body),
      map[], map[], map[])
  }

  /** The vertex/fragment pair is well formed, only the vertex stage gets
      setup code, and that setup links stage 0 with stage 1. */
  lemma PairExampleSetup()
    ensures WellFormed(PairExample())
    ensures SetupProgs(PairExample(), Present(PairExample().progs)) == [PairExample().progs[0].value]
    ensures SetupParts(PairExample(), SetupProgs(PairExample(), Present(PairExample().progs))) ==
      Success([SetupText(0, 1, [])])
  {
    var ir := PairExample();
    assert Present(ir.progs) == [ir.progs[0].value, ir.progs[1].value] by {
      assert ir.progs[1..][1..] == [];
    }
    assert SetupProgs(ir, [ir.progs[1].value]) == [];
    WellFormedSetupSucceeds(ir, 0);
    var targets := [ir.progs[0].value];
    var setup := SetupText(0, 1, []);
    assert targets[1..] == [];
    assert [setup] + [] == [setup];
    assert SetupParts(ir, targets) == Success([setup]);
  }
}
