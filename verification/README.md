# Braid back ends: shader-pair emission and native operator selection

This project models two code generators of the Braid staged compiler, in
Dafny, over an immutable model of the compiler's staged IR (`CompilerIR`:
programs, i.e. quoted stages, with their subprograms and persists;
procedures; the type table; the def-use map; the extern table).

- **WebGL back end** (`webgl.dfy`, after `src/backend_webgl.ts`). A vertex
  program is paired with its single fragment subprogram. Setup text links
  the pair (`get_shader`) and looks up one uniform location per persist.
  Binding text binds every persist with a call chosen by its type
  (`gl.uniform1i` for `Int`; errors otherwise), then makes the program
  current (`gl.useProgram`). The `vtx` intrinsic on a literal quote becomes
  that binding text. Whole-program emission walks the program table:
  shader programs go to the GLSL compiler and the others to the JavaScript
  compiler. Setup is emitted for the top-level shader programs only.
- **Native back end** (`llvm.dfy`, after `src/backends/llvm.ts`). The LLVM
  builder is replaced by an abstract instruction (`Add`, `Mul`, `AddF`,
  `MulF`, `Neg`, `NegF`, `ConstI32`, `ConstDouble`, `ConstStr`,
  `Load(ptr, name)`). The model is the total selection from literal kinds,
  operators with operand types, and variable references to an instruction
  or to one of the back end's errors.

Every thrown error is a `Failure` of `Result<_, Err>`. For every error
except `Undefined`, `Err.Message()` gives the exact string the source
throws. Reading a table entry that is absent is
`Err.Undefined(table, key)`: in the source that is `undefined`, and then a
runtime type error.

The collaborators that live in other files of the compiler are parameters:
the expression compiler is the `emit` parameter of the binding functions and
of `WebGL.VisitCall`, and the GLSL program compiler and the JavaScript
program and procedure compilers are the fields of `WebGL.Collaborators`. The small
naming helpers `progsym` ("q"+id), `persistsym` ("p"+id),
`emit_js_string`, `paren`, `emit_js_var`, `emit_js_fun` and `varsym`
("v"+id) are stand-in functions, as is the `vtx_expr` test (a call whose
callee is the lookup `vtx`). Those files are not part of this model.

Modules: `Wrappers` (Option, Result), `Text` (decimal rendering of ids,
concatenation, line splitting), `IR` (datatypes, errors, the present-program
walk), `WebGL`, `Llvm`.

Two facts about the code shape the model:
- The check that a shader program has exactly one child is made by the
  back end, in `get_prog_pair`, each time setup or binding is emitted.
- Shader compile and link failures are only logged by the runtime text
  `WEBGL_RUNTIME`, so neither is an error of code generation.

## Model

| member | source | states |
|---|---|---|
| WebGL.ShaderSymInjective | src/backend_webgl.ts:34-36 | a shader name is "s" followed by the decimal id, which reads back to the id; two shader names are equal exactly when their ids are |
| WebGL.LocSymInjective | src/backend_webgl.ts:40-42 | a location name is "l" followed by the decimal id, which reads back to the id; two location names are equal exactly when their ids are |
| WebGL.ShaderSymNotLocSym | src/backend_webgl.ts:34-42 | a shader name never equals a location name |
| WebGL.GetProgPair | src/backend_webgl.ts:44-55 | succeeds exactly when the vertex program is present with exactly one subprogram; the pair is `progs[progid]` and `progs[subprograms[0]]`; 0 or 2+ subprograms fail with the pairing error; an absent vertex program fails as undefined |
| WebGL.EmitShaderSetup | src/backend_webgl.ts:57-74 | fails with the pairing error whenever pairing fails; succeeds exactly when pairing succeeds and the fragment program is present |
| WebGL.SetupLineStructure | src/backend_webgl.ts:57-73 | a successful setup is exactly one `get_shader` declaration for the vertex and fragment programs, then one `getUniformLocation` declaration per vertex persist, in declaration order, each line ended by a newline; splitting it into lines gives those declarations back |
| WebGL.SetupTextTerminated | src/backend_webgl.ts:61-71 | the setup text is the `get_shader` declaration and then one `getUniformLocation` declaration per persist, in declaration order, each ended by a newline |
| WebGL.SetupTextLines | src/backend_webgl.ts:61-71 | the setup text of a vertex program, its fragment and its persists splits into exactly the `get_shader` line followed by the `getUniformLocation` lines, one per persist, in declaration order |
| WebGL.DeclaredNamesDistinct | src/backend_webgl.ts:61-71 | the variables a setup declares (shader, then one location per persist) are pairwise distinct exactly when the persists' escape ids are |
| WebGL.BindOne | src/backend_webgl.ts:82-100 | the value is compiled first and its failure wins; an `Int` value gives `gl.uniform1i(l<id>, (value))`; another primitive fails "only integer uniforms are supported"; a non-primitive fails "uniforms must be primitive types" |
| WebGL.BindUniforms | src/backend_webgl.ts:81-101 | succeeds exactly when every persist is bindable; then it yields one binding call per persist, in declaration order, each for that persist's location and compiled value |
| WebGL.BindUniformsFirstFailure | src/backend_webgl.ts:82-101 | the first persist in declaration order that cannot be bound decides the error |
| WebGL.EmitShaderBinding | src/backend_webgl.ts:76-109 | fails with the pairing error whenever pairing fails; succeeds exactly when pairing succeeds and every vertex persist is bindable |
| WebGL.BindingEndsWithUseProgram | src/backend_webgl.ts:105-108 | a successful binding ends with `gl.useProgram(s<vertex id>)`, and with no persists it is exactly that call |
| WebGL.BindingContents | src/backend_webgl.ts:81-108 | a successful binding is each persist's `gl.uniform1i` call followed by ",\n", in declaration order, then the `useProgram` call |
| WebGL.PairingFailureIsFatal | src/backend_webgl.ts:44-78 | for a present vertex program with 0 or 2+ subprograms, both setup and binding fail with the pairing error and produce no text |
| WebGL.VisitCall | src/backend_webgl.ts:118-133 | a `vtx` call on a literal quote is the binding of that quote's id; on any other argument it fails "dynamic `vtx` calls unimplemented"; every other call goes to the JavaScript rules unchanged |
| WebGL.VtxCallBindsQuote | src/backend_webgl.ts:120-128 | a `vtx` call on a quote fails the pairing check when the quoted program lacks exactly one subprogram; when it pairs and all persists are integers, it succeeds with text ending in that program's `useProgram` |
| WebGL.QuotedProcs | src/backend_webgl.ts:155-159 | the procedures of a program are looked up in `quoted_procs` order, absent ones passed as absent; a program without an entry fails as undefined |
| WebGL.ProgCode | src/backend_webgl.ts:156-168 | a program annotated "s" is compiled by the GLSL compiler and every other program by the JavaScript compiler; the procedure lookup comes first for both |
| WebGL.ProgDecls | src/backend_webgl.ts:152-172 | succeeds exactly when every program's code compiles; then there is one `var q<id> = code;` declaration per program, in the given order |
| IR.ProgAt | src/backend_webgl.ts:44-45 | a program read from the table by id is one of the programs the table walk visits |
| Text.ConcatAppend | src/backend_webgl.ts:191 | joining the setup parts with `join("")` distributes over concatenation of the parts |
| Text.TerminatedAppend | src/backend_webgl.ts:169-178 | the newline-terminated declaration blocks written one after another are the block of all their lines |
| Text.Terminated | src/backend_webgl.ts:169-178 | a block of newline-terminated lines has at least one character per line and, when non-empty, ends with a newline |
| IR.PresentSlot | src/backend_webgl.ts:153-154 | each present table slot contributes its program exactly once, between the programs of earlier and later slots; an absent slot contributes nothing |
| IR.PresentMembership | src/backend_webgl.ts:153-154 | a program is walked exactly when some table slot holds it |
| IR.PresentAppend | src/backend_webgl.ts:153-154 | walking two stretches of the table in turn walks their present programs in turn |
| WebGL.SetupProgsSelection | src/backend_webgl.ts:183-190 | a program gets setup exactly when it is present, annotated "s", and has no containing program |
| WebGL.SetupProgsAppend | src/backend_webgl.ts:183-190 | the setup selection keeps table order |
| WebGL.SetupParts | src/backend_webgl.ts:182-191 | succeeds exactly when every selected program's setup succeeds; then it holds those setups in order |
| WebGL.ToplevelProcs | src/backend_webgl.ts:174-178 | succeeds exactly when every top-level procedure compiles; then it holds their code in order |
| WebGL.WebglCompile | src/backend_webgl.ts:147-201 | succeeds exactly when program emission, procedure emission, setup emission and the main function all succeed |
| WebGL.CompileLayout | src/backend_webgl.ts:151-200 | the output is one declaration per present program in table order (GLSL code for "s" programs, JavaScript for the rest), the top-level procedures, then a wrapper running the setups of the top-level shader programs in table order and returning main; the declarations and procedures form one block of newline-terminated lines |
| WebGL.WellFormedSetupSucceeds | src/backend_webgl.ts:44-74 | in an IR where every slot holds its own id and every top-level shader program has one present child, a top-level shader program's setup succeeds, linking that program with its child under `s<progid>` and looking up that program's persists |
| WebGL.WellFormedSetupPartsSucceed | src/backend_webgl.ts:180-191 | in such an IR the setup stage of whole-program emission never fails |
| WebGL.PairExampleSetup | src/backend_webgl.ts:180-191 | for a vertex stage with its nested fragment stage, the IR meets that condition, only the vertex stage is selected for setup, and its setup links stage 0 with stage 1 |
| Llvm.VisitLiteral | src/backends/llvm.ts:88-97 | `int` gives a 32-bit integer constant, `float` a double constant, `string` a string constant, each exactly for that kind; every other kind fails "Unrecognized Type" |
| Llvm.VisitUnary | src/backends/llvm.ts:117-134 | succeeds exactly for `-` on an INT or FLOAT operand, with a negation of the operand's type; another operator on these types fails "Unknown unary op"; any other operand type fails "Incompatible Operand" |
| Llvm.VisitBinary | src/backends/llvm.ts:136-177 | succeeds exactly for `+` or `*` on two INTs or two FLOATs, with the instruction of that operator and type; another operator on such a pair fails "Unknown bin op"; mixed INT/FLOAT fails "Not implemented yet" whatever the operator; every other pairing fails "Incompatible Operands" |
| Llvm.SelectionDeterminesOpAndType | src/backends/llvm.ts:143-166 | two successful binary selections on matching types give the same instruction exactly when operator and type agree |
| Llvm.EmitExtern | src/backends/llvm.ts:32-43 | fails "Not implemented yet" for every name and type, function type or not |
| Llvm.EmitLookup | src/backends/llvm.ts:61-81 | an extern reference goes to the extern handler with the node's type-table type; a non-extern one succeeds exactly when its variable name is among the named values, and then loads exactly that pointer under that name; otherwise it fails "Unknown variable name" |
| Llvm.LookupLoadsNamedPointer | src/backends/llvm.ts:61-80 | with the built-in extern handler, a successful lookup is a non-extern variable whose name is known, loaded from its recorded pointer |
| Llvm.ExternLookupFails | src/backends/llvm.ts:113-115 | selection of a reference to an extern always fails |
| Llvm.Select | src/backends/llvm.ts:87-218 | a literal selects by its literal type; a lookup resolves as `emit_lookup` with the extern handler; a unary or binary operator reads its operands' types from the type table (a missing entry fails, the left operand first) and selects by operator and types; every other node kind fails "not implemented" |
| Llvm.SelectPreservesOperandType | src/backends/llvm.ts:117-177 | a selected operator instruction computes its operands' type-table type and implements the node's operator |

## Left out

- The text of `WEBGL_RUNTIME` (`src/backend_webgl.ts:6-30`): runtime JavaScript run against a GL context. Shader compile and link failures happen there and are only logged.
- `WEBGL_INTRINSICS` and `webgl_elaborate` (`src/backend_webgl.ts:203-212`): type elaboration belongs to the front end.
- `get_webgl_compile` (`src/backend_webgl.ts:138-144`) only ties the recursive knot. Here the expression compiler is the `emit` parameter, and the JavaScript rules are the `jsRules` parameter of `WebGL.VisitCall`.
- The LLVM builder and constant calls, and `codegen` with its emit-main wrapper (`src/backends/llvm.ts:222-236`): a foreign library. Only the instruction kind is modelled. Operand values are not carried, because the source leaves the operand emission commented out.
- `emit_assign` (`src/backends/llvm.ts:45-59`) is reached by no rule: `visit_assign` throws "not implemented", and `Llvm.Select` models that.
- Literal values and IEEE float semantics: constants carry only their kind.
- The browser widget (`dingus/gl.ts`) and the command-line driver (`cli/braid.ts`): rendering-loop I/O and plumbing.
- The helpers from other files (`progsym`, `persistsym`, `emit_js_string`, `paren`, `emit_js_var`, `emit_js_fun`, `varsym`, `vtx_expr`) are simple stand-ins. The compilers (`jscompile_prog`, `jscompile_proc`, `glsl_compile_prog`, the expression compiler) are parameters, so every property holds whatever they return.
- WebGL.VisitCall: a `vtx` call with no argument fails as an undefined read of argument 0. In the source that is a runtime type error, and the front end's typing rules out such a call.
- Llvm.EmitLookup: a lookup node without a def-use entry fails as undefined. The source would go on with an `undefined` definition id, which elaboration never produces for a lookup.
- WebGL.ShaderSymInjective, WebGL.LocSymInjective: ids are JavaScript numbers, while the model's ids are unbounded naturals. Integers above 2^53 collapse into one JavaScript number, so distinct large ids would not stay distinct. From 10^21 on, `"s" + id` is written in exponent notation, which does not read back as decimal digits. Node ids are small counters, far below both limits.
- Llvm.VisitUnary, Llvm.VisitBinary: the source compares a type object by identity with the shared `INT` and `FLOAT` objects, while the model compares types structurally. The two agree as long as integer and float types are only ever represented by those shared objects; the type definitions are not part of this model.
