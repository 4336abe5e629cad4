# RX front end: semantic analysis

The RX compiler's front end discovers a program's files by following imports, parses each into a syntax tree, and runs
three passes over every tree: it resolves type names and builds canonical types, declares functions and attaches the
functions of `impl` blocks, and enters variables in their scopes. This project models that analysis, together with import
discovery and the three printers whose output has to be read back or depends on hidden state, and proves what they promise.

## What is modelled

* **The interner.** Type objects live in a store and are found through one table per kind. The store is a sequence, an
  address a position in it, so object identity is explicit. Unfolding an address gives a finite structure; equal
  addresses are equal structures, over any sequence of calls.
* **Types and aliases.** The normal form of a type expression binds names, expands `use` aliases, keeps `type` names
  opaque, forgets `mut` and `nullable`, and makes fields a map in which the first field of a name counts. It is unknown
  or diverges exactly when the code's recursion is unknown or never ends. Materialisation is proved to return the pointer
  that unfolds to the normal form.
* **The three sub-passes** of type resolution run over mutable syntax: a type node has a slot for its declaration and its
  type, a scoped node has one for its scope. What the slots, scopes and tables hold is read into maps, and laws are proved
  of the maps.
* **Overload sets.** The code compares a function with what its scope stores. That is proved to keep the first function
  per alias-normalised parameter list, in terms of source order alone.
* **The whole analysis.** `Driver.Analyse` starts from parsed units and states what every scope, type node and function
  list holds in the end, down to the scopes of the innermost blocks. Function types need not be known: the assertion that
  fails on some programs is part of the model, as a result that says whether the analysis went through.
* **Import discovery** is a work list over two tables, proved to process files breadth first; the file system is a function
  from paths to imports.
* **Printers.** Type names have a decoder. The tree drawing with its flags refines a drawing by position. The
  diagnostic's index loop refines splitting on newlines.

## How to read it

Methods follow the code; the functions they are proved against say the same on values; lemmas say what those values are in
terms of the source alone. `ghost` parameters carry what the code leaves implicit: the scoped nodes, the node each type
slot belongs to (`owner`), the environment of a unit (`env`). `Placed`, `Located` and `Shaped` say where the parser puts
nodes, and `UnitDistinct` that no two places of a tree share one; `DeclsLocals` are the type nodes inside blocks. Exported
declarations are taken without their wrapper, and an expression is reduced to the blocks inside it, since nothing else in it
touches a scope. Reports carry the names in them, not their wording or position.

Six places where the code does less than it sets out to do are stated exactly, each with an input.

* Aliases that come back to themselves are never rejected, and their expansion never ends: exactly those
  (`AliasCycles.DivergesExactly`), for one `use a = b; use b = a` (`AliasExpansion.MutualAliasesNeverEnd`).
* Declaring a typed function after an untyped first one of the same name fails an assertion, and nothing else does
  (`Overloads.FunctionTableIsExact`, `Driver.UntypedFirstFails`).
* Types spelled like another declaration, a native type or the unit type print like it; all others are told apart
  (`TypeNames.NamesTellTypesApartExactly`).
* A variable declared with a type inside a block is entered in no scope and its value is not visited, because types inside
  blocks are never resolved (`ScopeContents.CheckBlockHolds`, `ScopeContents.TypedLocalsAreInNoScope`; for one
  `let x: i32 = 1`, `ScopeContents.LoneTypedLocal`).
* Import paths are compared as written, so a file that imports itself as `./a` is met under ever new names. The traversal
  ends exactly if finitely many paths can be reached (`TraverseAtMost`, `SelfImportNeverEnds` in `ImportClosure`); where the
  file system limits the length of a path, an import fails at that length and ends it.
* The printer's `for` visitor sets the wrong column flag where the statement comes last (`ASTPrinter.PrintDrawsExactly`,
  `ASTPrinter.LastForLosesBar`). The parser builds no `for` statement yet, and every tree without one is drawn right.

## Model

| member | source | states |
|---|---|---|
| LexicalScopes.LexicalScope.Find | compiler/lib/Sema/LexicalScope.cpp:7-15 | The nearest enclosing scope with an entry for the symbol, or none if no scope of the chain has one. |
| LexicalScopes.LexicalScope.Insert | compiler/lib/Sema/LexicalScope.cpp:17-22 | The declaration is appended to the symbol's list and no other symbol changes; the caller must not insert a declaration twice. |
| LexicalScopes.LexicalContext.CreateNewScope | compiler/include/rxc/Sema/LexicalContext.h:23-26 | The new scope is last in the storage, nothing else moves, and parents stay older than their children. |
| LexicalScopes.ChainsEnd | compiler/include/rxc/Sema/LexicalContext.h:23-26 | Every stored scope has a finite chain of stored ancestors, which is why `Find` ends. |
| TypeStorage.UnfoldStable | compiler/lib/AST/TypeContext.cpp:34-79 | What an address stands for never changes as the store grows. |
| TypeStorage.AddressesAreCanonical | compiler/lib/AST/TypeContext.cpp:34-79 | Two addresses are equal exactly when the structures they unfold to are equal. |
| TypeStorage.QualTypesAreCanonical | compiler/lib/AST/QualType.cpp:16-18 | The same for qualified pointers, null and `mut` included. |
| TypeStorage.InternFindsAddress | compiler/lib/AST/TypeContext.cpp:34-79 | A stored object is found again under its one address. |
| TypeContexts.AppendKeepsConsistent | compiler/lib/AST/TypeContext.cpp:34-79 | Adding an object under the key of its kind keeps every table exact: each key leads to the one object with that key, and no object is missing. |
| TypeContexts.TypeContext.GetUnitType | compiler/lib/AST/TypeContext.cpp:28 | Returns the one unit object. |
| TypeContexts.TypeContext.GetBuiltinType | compiler/lib/AST/TypeContext.cpp:30-32 | Returns the one object of the native type. |
| TypeContexts.TypeContext.GetNamedType | compiler/lib/AST/TypeContext.cpp:34-42 | Returns the object for the declaration, adding it with an empty function list if it is new. |
| TypeContexts.TypeContext.GetPointerType | compiler/lib/AST/TypeContext.cpp:44-51 | Returns the pointer object, adding it only if new; must not be asked for a pointer to the null type, the table's reserved key. |
| TypeContexts.TypeContext.GetArrayType | compiler/lib/AST/TypeContext.cpp:53-60 | The same for arrays. |
| TypeContexts.TypeContext.GetFuncType | compiler/lib/AST/TypeContext.cpp:62-67 | The same for parameter lists with a return type. |
| TypeContexts.TypeContext.GetObjectType | compiler/lib/AST/TypeContext.cpp:69-73 | The same for finite maps of fields. |
| TypeContexts.TypeContext.GetEnumType | compiler/lib/AST/TypeContext.cpp:75-79 | The same for finite maps of members, kept apart from objects. |
| TypeContexts.TypeContext.AddImpl | compiler/lib/AST/TypeContext.cpp:81-84 | The function goes to the end of the type's list; the type must have an object. |
| InternerRuns.AttachKeepsListsExact | compiler/lib/AST/TypeContext.cpp:81-84 | In any run, `addImpl` after `getNamedType` finds its list, and the lists hold exactly what was attached, in call order. |
| InternerRuns.Step | compiler/lib/AST/TypeContext.cpp:26-84 | One call of any kind keeps all earlier results pointing to the structure their calls asked for. |
| InternerRuns.Run | compiler/lib/AST/TypeContext.cpp:26-84 | Any sequence of calls, each using earlier results: two results are equal exactly when the calls denote the same structure, and every function list is exact. |
| NormalForms.NormalIgnoresOpen | compiler/lib/Sema/ResolveGlobalTypePass.cpp:171-187 | Where expansion ends, its result does not depend on which aliases are already being expanded. |
| AliasExpansion.ExpansionEndsExactly | compiler/lib/Sema/ResolveGlobalTypePass.cpp:171-187 | Plain recursive expansion ends for some bound on the nesting of aliases exactly when the normal form does not diverge, and then gives it. |
| AliasExpansion.AcyclicUsesEnd | compiler/lib/Sema/ResolveGlobalTypePass.cpp:171-187 | If `use`-to-`use` references are acyclic every expression has a normal form, however recursive the `type` declarations are. |
| AliasCycles.DivergesExactly | compiler/lib/Sema/ResolveGlobalTypePass.cpp:171-187 | The expansion of an expression goes on for ever exactly if some walk along alias references comes back to an alias, where each reference is in the body of the one before and no part ahead of it leads to an unresolved name: a condition on the graph of references alone. |
| AliasExpansion.MutualAliasesNeverEnd | compiler/lib/Sema/ResolveGlobalTypePass.cpp:171-187 | Nothing stops `use a = b; use b = a`: the expansion of either diverges for every bound, whatever the two names. |
| AliasExpansion.UnknownExactly | compiler/lib/Sema/ResolveGlobalTypePass.cpp:194-282 | Where expansion ends, an expression is unknown exactly when an unresolved reference can be reached in it, stepping from alias to alias and never through a `type` name. |
| Materialisation.MatMeansNormal | compiler/lib/Sema/ResolveGlobalTypePass.cpp:136-282 | The pointer materialisation returns unfolds to the normal form, and is the null type if that is unknown; the store only grows. |
| Materialisation.MatAgain | compiler/lib/Sema/ResolveGlobalTypePass.cpp:136-282 | In any later store, materialising the expression again returns the same pointer and adds nothing. |
| Materialisation.InternMeans | compiler/lib/AST/TypeContext.cpp:34-79 | A composite interned from pointers stands for the composite of what they stand for. |
| NormalForms.FirstFieldCounts | compiler/lib/Sema/ResolveGlobalTypePass.cpp:242-282 | In a known object or enum type a name has the type of the first field of that name. |
| NormalForms.QualifiersAreForgotten | compiler/lib/Sema/ResolveGlobalTypePass.cpp:194-211 | `mut` on a type expression and `nullable` on a pointer leave no trace in the type. |
| ResolveTypeSymbols.Lookup | compiler/lib/Sema/ResolveGlobalTypePass.cpp:84-92 | The declarations of the nearest scope that has the symbol. |
| ResolveTypeSymbols.VisitRef | compiler/lib/Sema/ResolveGlobalTypePass.cpp:83-116 | One reference: reported if nothing is found, bound to a type or alias if that is found, reported with a note otherwise. |
| ResolveTypeSymbols.VisitBoundRef | compiler/lib/Sema/ResolveGlobalTypePass.cpp:83-116 | Along a chain that shows an environment, the reference is bound to what the environment says, never ambiguously and never to something that is not a type. |
| ResolveTypeSymbols.VisitType | compiler/lib/Sema/ResolveGlobalTypePass.cpp:75-122 | Every reference in the expression is bound right, earlier bindings stay, and the undefined ones are reported: which these are, and their order, is `Reports.UndefinedInOrder`. |
| ResolveTypeSymbols.VisitParams | compiler/include/rxc/Sema/RecursiveASTVisitor.h:143-149 | The same for a parameter list. |
| ResolveTypeSymbols.VisitFields | compiler/include/rxc/Sema/RecursiveASTVisitor.h:150-161 | The same for the fields of an object or enum. |
| Reports.UndefinedInOrder | compiler/lib/Sema/ResolveGlobalTypePass.cpp:83-91 | The reports about an expression are one for each occurrence of a name that means nothing, from left to right over its leaves, and no other. |
| Reports.UndefinedExactly | compiler/lib/Sema/ResolveGlobalTypePass.cpp:83-91 | A name is reported for an expression exactly if some leaf refers to it and it means nothing. |
| Reports.UnitUndefinedExactly | compiler/lib/Sema/ResolveGlobalTypePass.cpp:83-91 | Over a unit, a name is reported exactly if a type written outside blocks refers to it in vain. |
| MaterializeTypes.SetKeepsSound | compiler/lib/Sema/ResolveGlobalTypePass.cpp:167 | Storing what a node's expression means keeps every node's remembered type right. |
| MaterializeTypes.VisitType | compiler/lib/Sema/ResolveGlobalTypePass.cpp:127-292 | The store and the pointer are those of materialisation, the node remembers its type, all other nodes stay right, function lists are kept, and the duplicate fields are reported. |
| MaterializeTypes.VisitBuiltin | compiler/lib/Sema/ResolveGlobalTypePass.cpp:136-169 | The case of a native type. |
| MaterializeTypes.VisitRef | compiler/lib/Sema/ResolveGlobalTypePass.cpp:171-187 | The case of a reference: unknown if unbound, nominal for a `type`, and the expansion of the body for a `use`. |
| MaterializeTypes.VisitPointer | compiler/lib/Sema/ResolveGlobalTypePass.cpp:203-211 | The case of a pointer; an unknown pointee never reaches the interner. |
| MaterializeTypes.VisitArray | compiler/lib/Sema/ResolveGlobalTypePass.cpp:213-221 | The case of an array; likewise. |
| MaterializeTypes.VisitFunction | compiler/lib/Sema/ResolveGlobalTypePass.cpp:223-240 | The case of a function type: early exit at the first unknown part. |
| MaterializeTypes.VisitParams | compiler/lib/Sema/ResolveGlobalTypePass.cpp:224-230 | Its parameter loop. |
| MaterializeTypes.VisitObject | compiler/lib/Sema/ResolveGlobalTypePass.cpp:242-261 | The case of an object type. |
| MaterializeTypes.VisitEnum | compiler/lib/Sema/ResolveGlobalTypePass.cpp:263-282 | The case of an enum type. |
| MaterializeTypes.VisitFields | compiler/lib/Sema/ResolveGlobalTypePass.cpp:243-257 | The field loop: the first field of a name counts, each later one is reported, and it stops at the first unknown type. |
| DuplicateReports.DuplicatesExactly | compiler/lib/Sema/ResolveGlobalTypePass.cpp:242-282 | Each reported repeat of a field or member can be reached through the parts of the expression and its aliases; in an expression with a known type each that can be reached is reported. |
| ScopeTrees.EnterScope | compiler/include/rxc/Sema/RecursiveASTVisitor.h:247-255 | A node's scope is created on its first visit under the scope of the nearest scoped node around it, and reused later; the tree of scopes stays right. |
| Visitors.RecursiveASTVisitor.Visit | compiler/include/rxc/Sema/RecursiveASTVisitor.h:42-61 | A visit returns what the dispatcher pushed and leaves both stacks as it found them. |
| Visitors.RecursiveASTVisitor.Accept | compiler/include/rxc/Sema/RecursiveASTVisitor.h:271-293 | A dispatcher pushes exactly one result and restores the scope stack; exactly the scoped nodes visited have gained a scope. |
| Visitors.RecursiveASTVisitor.VisitParts | compiler/include/rxc/Sema/RecursiveASTVisitor.h:64-243 | The same for any order and repetition of visits to parts. |
| Visitors.RunPasses | compiler/include/rxc/Sema/RecursiveASTVisitor.h:247-293 | Any sequence of passes: every visited scoped node has one scope, nested as in the syntax tree, no other node gains one, every pass gives its result, and both stacks of every visitor end empty. |
| ForwardDeclareTypes.DeclareType | compiler/lib/Sema/ResolveGlobalTypePass.cpp:29-65 | A free name gets the declaration; a taken name is reported and left. |
| ForwardDeclareTypes.ForwardDeclareType | compiler/lib/Sema/ResolveGlobalTypePass.cpp:21-73 | After the first sub-pass the file's scope holds the first declaration of each type name, every other scope of the unit is empty, and the later ones are reported. |
| ScopeLaws.FirstTypesExactly | compiler/lib/Sema/ResolveGlobalTypePass.cpp:29-65 | Which declaration those names stand for: the one at the first position that declares the name as a type or alias. |
| Reports.RedefinitionsExactly | compiler/lib/Sema/ResolveGlobalTypePass.cpp:29-65 | A redefinition of a name is reported exactly if some earlier position declares the name as a type. |
| ResolveGlobalTypes.ResolveTypeSymbol | compiler/lib/Sema/ResolveGlobalTypePass.cpp:75-125 | The second sub-pass binds every reference outside function bodies to the nearest declaration of its name. |
| ResolveGlobalTypes.MaterializeType | compiler/lib/Sema/ResolveGlobalTypePass.cpp:127-292 | The third sub-pass gives every type expression outside function bodies its type, growing the store as materialisation in visiting order does. |
| ResolveGlobalTypes.Run | compiler/lib/Sema/ResolveGlobalTypePass.cpp:294-304 | The three in sequence, with everything they report; in every declaration each written type is bound and has the type its normal form says. |
| ResolveGlobalTypes.RootsAreTheDeclarations | compiler/include/rxc/Sema/RecursiveASTVisitor.h:82-121 | What the sub-passes visit covers the declarations: the bodies of `type` and `use`, the types of variables, of functions, their parameters and results, and of `impl` blocks with their functions are bound and have their types. |
| ResolveGlobalTypes.EqualTypesAreEqualNormalForms | compiler/lib/Sema/ResolveGlobalTypePass.cpp:136-282 | Alias equivalence is decided exactly: two expressions, from any two units, with known results have equal types exactly when their normal forms agree; and a type is unknown exactly when the normal form is. |
| ResolveGlobalTypes.MatRootsAgain | compiler/lib/Sema/ResolveGlobalTypePass.cpp:127-292 | Repeating the third sub-pass leaves the store as it is. |
| ResolveGlobalTypes.FunctionTypeListsParameterTypes | compiler/lib/Parser/ParseTreeVisitor.h:312-342 | The parameter list of a function's type equals its parameters' own types, whose nodes it shares. |
| DeclOrder.SameTypes | compiler/lib/Sema/ResolveGlobalTypePass.cpp:29-65 | Without duplicate type names, which declaration a name is bound to does not depend on their order. |
| DeclOrder.DuplicatesDependOnOrder | compiler/lib/Sema/ResolveGlobalTypePass.cpp:29-65 | With two different declarations of one name it always does: some order binds the name differently. |
| DeclOrder.ClashesExactly | compiler/lib/Sema/ResolveGlobalTypePass.cpp:29-65 | A redefinition is reported exactly when two positions declare one type name. |
| DeclOrder.OrderDoesNotMatter | compiler/lib/Sema/ResolveGlobalTypePass.cpp:294-304 | Without duplicates two runs over reordered declarations bind every reference alike, give every expression the same structure, and make the same reports. |
| SymbolTables.InsertAt | compiler/lib/Sema/LexicalScope.cpp:17-22 | Insertion into one node's scope changes no other node's table. |
| SymbolTables.Enter | compiler/include/rxc/Sema/RecursiveASTVisitor.h:284-293 | Opening scopes changes no table. |
| SymbolTables.EnterExpr | compiler/include/rxc/Sema/RecursiveASTVisitor.h:163-217 | A traversal that declares nothing opens the scopes of the blocks in an expression and changes no table. |
| Overloads.OverloadSetIsExact | compiler/lib/Sema/ForwardDeclareFunctions.cpp:29-65 | The functions kept under a name start with the first one, have pairwise different known parameter lists unless there is one alone, and miss no known parameter list. |
| Overloads.JudgeAmongFunctions | compiler/lib/Sema/ForwardDeclareFunctions.cpp:29-65 | Compared with typed functions in turn, a typed function clashes exactly if one of them has its parameter list. |
| Overloads.JudgedExactly | compiler/lib/Sema/ForwardDeclareFunctions.cpp:29-65 | Each declaration comes out as the source order alone says: name taken by a type, failing assertion, kept, left unchecked, or clash. |
| Overloads.FunctionTableIsExact | compiler/lib/Sema/ForwardDeclareFunctions.cpp:25-69 | After its functions are declared a scope holds its types and, for every other name, the first function per alias-normalised parameter list; the assertion on function types fails exactly if a typed function follows an untyped first one of its name. |
| Overloads.SameSigExactly | compiler/lib/Sema/ForwardDeclareFunctions.cpp:54 | Two functions clash exactly when their parameter types are alias-equivalent one by one; return types play no part. |
| Overloads.AddFuncKeepsOk | compiler/lib/Sema/ForwardDeclareFunctions.cpp:25-69 | Whatever is declared next, each name stands for one declaration or for functions with known, pairwise different parameter lists. |
| ForwardDeclareFunctions.SameParamsSameSig | compiler/lib/Sema/ForwardDeclareFunctions.cpp:54 | Equal interned parameter lists are equal alias-normalised parameter lists. |
| ForwardDeclareFunctions.Compare | compiler/lib/Sema/ForwardDeclareFunctions.cpp:29-65 | The loop over stored declarations: its result, its reports and its failing assertion are those of the comparison one by one. |
| ForwardDeclareFunctions.VisitFunc | compiler/lib/Sema/ForwardDeclareFunctions.cpp:25-69 | The table of the declaring scope gains the function exactly if the comparison accepts it; no other table changes and nothing is inserted twice. |
| ForwardDeclareFunctions.VisitImplFunc | compiler/lib/Sema/ForwardDeclareFunctions.cpp:93-97 | A function of a block that is declared is attached to the block's type, and one that is not is not. |
| ForwardDeclareFunctions.VisitImpls | compiler/lib/Sema/ForwardDeclareFunctions.cpp:93-97 | The functions of a block one after the other. |
| ForwardDeclareFunctions.FindTarget | compiler/lib/Sema/ForwardDeclareFunctions.cpp:72-91 | The type a block is for: the declaration exactly if the written type's normal form is that named type, whatever alias it is written with; silent on unknown types, reported on others; it always has an object to attach to. |
| ForwardDeclareFunctions.VisitImpl | compiler/lib/Sema/ForwardDeclareFunctions.cpp:71-99 | A whole block. |
| ForwardDeclareFunctions.VisitDecl | compiler/include/rxc/Sema/RecursiveASTVisitor.h:64-73 | One top-level declaration of any kind in this pass. |
| FunctionPass.AttachedExactly | compiler/lib/Sema/ForwardDeclareFunctions.cpp:71-99 | A unit attaches a function to a named type exactly if it is kept from some block whose type has that named type as its normal form. |
| Reports.FuncReportsExactly | compiler/lib/Sema/ForwardDeclareFunctions.cpp:54-65 | A function that is not kept and whose type is known is reported with its name, as a redefinition of a type or of a function, in order; nothing else is. |
| Reports.UnitFuncReportsExactly | compiler/lib/Sema/ForwardDeclareFunctions.cpp:25-99 | The pass reports exactly what is to be said about the file's own functions and about each block, one that is for no named type included. |
| FunctionPass.FailsExactly | compiler/lib/Sema/ForwardDeclareFunctions.cpp:49-52 | The failing assertion for a unit, scope by scope. |
| FunctionPass.DeclaredExactly | compiler/lib/Sema/ForwardDeclareFunctions.cpp:25-99 | The whole pass on tables: when it stops, what every scope holds, and what every named type gains. |
| FunctionPass.AttachedOnce | compiler/lib/AST/TypeContext.cpp:81-84 | No function of a unit is attached twice to a type. |
| FunctionPass.DeclsKeepOk | compiler/lib/Sema/ForwardDeclareFunctions.cpp:25-99 | Tables in order stay in order through every declaration. |
| FunctionPass.Run | compiler/lib/Sema/ForwardDeclareFunctions.cpp:106-111 | The pass over a resolved unit: it goes through exactly if no typed function follows an untyped first one of its name; then scopes and function lists are exact. |
| TypeChecks.StmtsTable | compiler/include/rxc/Sema/RecursiveASTVisitor.h:220-225 | A block's scope ends with its first usable variable of each name, undisturbed by what is nested in their initialisers. |
| TypeChecks.ParamsTable | compiler/lib/Sema/TypeCheck.cpp:111-135 | A function's scope ends with its first usable parameter of each name. |
| TypeChecks.FileTable | compiler/lib/Sema/TypeCheck.cpp:81-106 | The file's scope keeps its types and functions and gains the first usable variable of every other name. |
| TypeChecks.CheckDeclsLocal | compiler/lib/Sema/TypeCheck.cpp:81-135 | The pass touches only the tables of the unit's own scopes. |
| TypeChecks.CheckDeclsOk | compiler/lib/Sema/TypeCheck.cpp:41-53 | It keeps every table in order. |
| TypeCheckPass.Refuse | compiler/lib/Sema/TypeCheck.cpp:41-99 | The checks before an initialiser is visited, their reports, and the assertion of the deduction after them. |
| Reports.RefusedExactly | compiler/lib/Sema/TypeCheck.cpp:41-99 | What is said about a variable or parameter: that its name is taken, by what the scope held or by one entered before; else that it has neither type nor value; nothing if only its type is unknown. |
| TypeCheckPass.VisitVar | compiler/lib/Sema/TypeCheck.cpp:81-135 | A variable or parameter: refused, or entered after its initialiser is visited, into a name that is still free. |
| TypeCheckPass.VisitBlock | compiler/include/rxc/Sema/RecursiveASTVisitor.h:220-225 | A block and everything nested in it. |
| TypeCheckPass.VisitFunc | compiler/include/rxc/Sema/RecursiveASTVisitor.h:108-116 | A function: parameters in its scope, then its body. |
| TypeCheckPass.Run | compiler/lib/Sema/TypeCheck.cpp:267-271 | The pass over a unit. |
| ScopeContents.CheckBlockHolds | compiler/include/rxc/Sema/RecursiveASTVisitor.h:220-225 | A block's scope and all scopes inside it hold what the syntax tree says once the block is left: the first variable of each name that has no declared type but a value, and nothing in blocks inside the values of variables that are refused. |
| ScopeContents.CheckFuncHolds | compiler/lib/Sema/TypeCheck.cpp:111-135 | The same for a function: its first parameter of each name whose type is known, the blocks in the default values, and its body. |
| ScopeLaws.FunctionScopeExactly | compiler/lib/Sema/TypeCheck.cpp:111-135 | In a function's scope a name stands for the first parameter written with that name whose type is known, or for nothing. |
| ScopeLaws.BlockScopeExactly | compiler/lib/Sema/TypeCheck.cpp:81-106 | In a block's scope a name stands for the first variable written with that name that has a value and no type, or for nothing. |
| ScopeLaws.ImplScopeExactly | compiler/lib/Sema/ForwardDeclareFunctions.cpp:71-99 | In the scope of a block for a named type a name stands for its overload set; the scopes of other blocks are empty. |
| ScopeContents.CheckDeclsHold | compiler/lib/Sema/TypeCheck.cpp:81-135 | The same for a whole unit, with the overload sets in the scopes of its `impl` blocks. |
| ScopeContents.DeclsStay | compiler/rx-frontend.cpp:155-165 | Those scopes keep what they hold while their tables stay. |
| ScopeContents.LoneTypedLocal | compiler/lib/Sema/TypeCheck.cpp:93-97 | The scope of a block that declares one variable, with a type, is empty, and so are all scopes in the variable's value. |
| ScopeContents.TypedLocalsAreInNoScope | compiler/lib/Sema/TypeCheck.cpp:93-97 | No scope inside the file holds a variable with a declared type. |
| PipelineSpecs.FileScopeExactly | compiler/rx-frontend.cpp:160-164 | After all passes a file-level name stands for the type that owns it, else its overload set, else the first variable of the name that can be typed, else nothing. |
| ScopeLaws.FileScopeLaw | compiler/rx-frontend.cpp:160-164 | The same on positions of the unit: the first type of the name; without one, functions of the name alone; without these, the first variable of that name with a known type, or with a value and no type. |
| Pipeline.ResolveUnit | compiler/rx-frontend.cpp:161 | The first pass in terms of tables: the file's types, and nothing else; no type node inside a block is given a type. |
| OpenedScopes.OpenedExactly | compiler/include/rxc/Sema/RecursiveASTVisitor.h:247-293 | The first pass opens the scopes of exactly those nodes of the unit that lie in no block: functions, `impl` blocks, function bodies and the outermost blocks in values. |
| Pipeline.CheckUnit | compiler/rx-frontend.cpp:163 | The last pass completes every scope of the unit, from the file's to the innermost block's, and keeps every table in order. |
| Pipeline.RunUnit | compiler/rx-frontend.cpp:160-164 | The three passes over one unit: references bound, types resolved, every scope exact, the global scope untouched. |
| Analyses.StaysFinished | compiler/rx-frontend.cpp:155-165 | What holds of an analysed unit survives the analysis of another. |
| Analyses.StaysPending | compiler/rx-frontend.cpp:155-165 | So does what is needed to analyse a later one, although they share the builtins' type nodes. |
| Analyses.ListsAfterUnit | compiler/lib/AST/TypeContext.cpp:81-84 | Each named type's function list is the concatenation, in processing order, of what the units attach to it. |
| Analyses.ListsAreExact | compiler/lib/AST/TypeContext.cpp:81-84 | In the end a function is in a named type's list exactly if it is kept from some block, of any unit, whose type has that named type as its normal form. |
| Analyses.AliasAndTypeShareAList | compiler/lib/Sema/ForwardDeclareFunctions.cpp:71-99 | A block written for a `use` alias of a type and a block for the type itself share one list. |
| Analyses.StaysBound | compiler/lib/Sema/ResolveGlobalTypePass.cpp:83-116 | A unit's references keep their declarations while other units are resolved. |
| Analyses.AttachedAllOnce | compiler/lib/AST/TypeContext.cpp:81-84 | Over all units, no function is in the list of a type twice. |
| Analyses.AnalyseUnits | compiler/rx-frontend.cpp:155-165 | All units in sequence: every one is finished, the lists are exact and without repeats, the global scope is as before. |
| Builtins.PopulateBuiltins | compiler/rx-frontend.cpp:51-93 | The global scope holds exactly the eight builtin names, each an alias of its native type. |
| Builtins.BuiltinsMean | compiler/rx-frontend.cpp:51-93 | What a name that a unit does not declare means in it; `char` is the 8-bit type and no name means `i8`. |
| Builtins.BuiltinsSpelledOut | compiler/rx-frontend.cpp:51-93 | The eight names one by one, with eight different types. |
| Builtins.Start | compiler/rx-frontend.cpp:127-132 | The state before the first unit. |
| Driver.AcyclicWithBuiltins | compiler/rx-frontend.cpp:51-93 | Builtins never make aliases cyclic. |
| Driver.BuiltinsPrintAs | compiler/lib/AST/Type.cpp:9-31 | `void`, `bool` and `char` are printed as `unit`, `i1` and `i8`, the others as they are written. |
| Driver.Analyse | compiler/rx-frontend.cpp:127-165 | From parsed units with acyclic aliases to the finished program: every reference outside blocks is bound and every type expression there typed, none inside a block is typed, every scope and function list holds exactly what the source says; with the exact condition for reaching the end. |
| Driver.UntypedFirstFails | compiler/lib/Sema/ForwardDeclareFunctions.cpp:49-52 | `func f(x: U)` before `func f(x: i32)`, with no `U`, meets the failing assertion; in the other order it is not met. |
| ImportClosure.SourceManager.OpenFile | compiler/lib/Basic/SourceManager.cpp:52-62 | Opens a path that is not open yet, or changes nothing. |
| ImportClosure.TranslationUnit.Parse | compiler/lib/Frontend/TranslationUnit.cpp:18-21 | Parses a unit that has not been parsed. |
| ImportClosure.TranslationUnitContext.SetRootFile | compiler/lib/Frontend/TranslationUnitContext.cpp:12-18 | The root alone. |
| ImportClosure.TranslationUnitContext.ImportOne | compiler/lib/Frontend/TranslationUnitContext.cpp:30-49 | One import: other kinds are skipped, a new file is opened and queued, a failing one is reported, and the link is added. |
| ImportClosure.TranslationUnitContext.Process | compiler/lib/Frontend/TranslationUnitContext.cpp:25-50 | One file: parsed once, its links are its openable file imports in order and with repeats. |
| ImportClosure.TargetsExactly | compiler/lib/Frontend/TranslationUnitContext.cpp:30-49 | The links of a file are its file imports that can be opened, each once and in order. |
| ImportClosure.FailuresExactly | compiler/lib/Frontend/TranslationUnitContext.cpp:38-42 | The failures of a file are its file imports that cannot, each once and in order. |
| ImportClosure.TranslationUnitContext.TraverseFileImports | compiler/lib/Frontend/TranslationUnitContext.cpp:20-51 | The table holds exactly the paths reachable from the root, agrees with the source manager's, every link list is exact, every file is processed once, in the breadth-first order in which files are first met, and every failing import is reported. |
| ImportClosure.ClosedHoldsReachable | compiler/lib/Frontend/TranslationUnitContext.cpp:20-51 | A set of paths no openable import leads out of holds everything reachable. |
| ImportClosure.TranslationUnitContext.TraverseAtMost | compiler/lib/Frontend/TranslationUnitContext.cpp:20-51 | The same loop stopped after `n` files has ended by itself exactly if at most `n` paths can be reached; so the loop ends exactly if finitely many can. If it has ended the result is the same. |
| ImportClosure.LengtheningNeverCloses | compiler/lib/Frontend/TranslationUnitContext.cpp:34-37 | Where each file that can be reached imports a longer path than its own, infinitely many paths can be reached. |
| ImportClosure.SelfImportNeverCloses | compiler/lib/Frontend/TranslationUnitContext.cpp:34-37 | Paths are compared as written: a file `d/a` that imports `./a` is met under ever longer paths. |
| ImportClosure.SelfImportNeverEnds | compiler/lib/Frontend/TranslationUnitContext.cpp:20-51 | For that file the loop has not ended after any number of files. |
| TypeNames.GetTypeName | compiler/include/rxc/AST/Type.h:80-157 | The name the loops build. |
| TypeNames.GetFieldNames | compiler/include/rxc/AST/Type.h:124-135 | Their field loop. |
| TypeNames.GetQualName | compiler/lib/AST/QualType.cpp:27-34 | Prefixed by `mut`, or the unknown mark. |
| TypeNames.DecodesQual | compiler/lib/AST/QualType.cpp:27-34 | The decoder reads a name back from the front of any text that can follow it. |
| TypeNames.DecodesType | compiler/include/rxc/AST/Type.h:73-170 | The same for each kind of type. |
| TypeNames.NamesDecode | compiler/include/rxc/AST/Type.h:73-170 | Names are uniquely decodable: equal names exactly for equal printed types. |
| TypeNames.SameNameSameType | compiler/lib/AST/Type.cpp:9-31 | Where nominal types are spelled apart from each other and from the leaf words, types with one name are one type, whatever the order of fields. |
| TypeNames.SameNameSamePointer | compiler/lib/AST/TypeContext.cpp:34-79 | So are interned pointers. |
| TypeNames.NamesTellTypesApartExactly | compiler/lib/AST/Type.cpp:9-31 | Among types over some declarations a name belongs to one type exactly if no two declarations are spelled alike and none like a native type or the unit type. |
| TypeNames.ElseSomePrintAlike | compiler/lib/AST/Type.cpp:9 | Otherwise two different types with one name are given. |
| TypeNames.HasPresentation | compiler/include/rxc/AST/Type.h:73-170 | A type over identifiers in which nothing unknown is qualified can be printed. |
| TypeNames.HasNameExactly | compiler/include/rxc/AST/Type.h:73-170 | And no other type can be printed by names the decoder reads. |
| ASTPrinter.PrintAgrees | compiler/lib/AST/ASTPrinter.cpp:93-132 | From any flags that are right but for some stale ones, a node's lines are the drawing exactly if none of its steps shows a stale flag, and then the flags that end stale are known. |
| ASTPrinter.PrintDrawsExactly | compiler/lib/AST/ASTPrinter.cpp:93-132 | The printer's lines are the drawing exactly if, whenever a `for` statement that comes last and is not itself a part of a `for` leaves its flag cleared, the next node of its depth is a last child or has no parts. |
| ASTPrinter.PrintRestores | compiler/lib/AST/ASTPrinter.cpp:93-132 | Where no step clears a flag the node is drawn and every flag ends as it was. |
| ASTPrinter.PrefixAt | compiler/lib/AST/ASTPrinter.cpp:93-109 | The drawing column by column: a bar below each ancestor that has siblings to come, a blank below a last one, and the node's own branch. |
| ASTPrinter.ASTPrinterVisitor.PrintNodePrefix | compiler/lib/AST/ASTPrinter.cpp:93-109 | One prefix read off the flags; the flag of a last child is cleared. |
| ASTPrinter.ASTPrinterVisitor.Visit | compiler/lib/AST/ASTPrinter.cpp:134-452 | One visit: text, flags, depth and stack. |
| ASTPrinter.PrintTree | compiler/lib/AST/ASTPrinter.cpp:487-501 | A whole tree of height at most 32: the text is the drawing exactly if the flags hold, as they do in every tree without `for` statements. |
| ASTPrinter.LastForLosesBar | compiler/lib/AST/ASTPrinter.cpp:322-344 | A tree of height 4 in which a `for` statement that comes last breaks the drawing of a later node. |
| ASTPrinter.DrawingDeterminesTree | compiler/lib/AST/ASTPrinter.cpp:93-132 | Prefixes and labels determine the tree. |
| SourceLines.SplitJoins | compiler/lib/Basic/Diagnostic.cpp:37-53 | The pieces joined with newlines are the text, and hold no newline. |
| SourceLines.SplitIsUnique | compiler/lib/Basic/Diagnostic.cpp:37-53 | There is no other way to cut it. |
| SourceLines.InRangeExactly | compiler/lib/Basic/Diagnostic.cpp:44-48 | Each existing line number in the range is shown once, with its line, in order. |
| SourceLines.PrintSourceLocation | compiler/lib/Basic/Diagnostic.cpp:31-55 | The pieces the loop goes through are newline-free and join back to the text; each whose number, from 1, is in the range is shown under it, in order, and nothing else. An empty text has no pieces. |

## Left out

- Lexing, parsing and the parse-tree visitor: trees start well formed, with no null enum payloads and no dotted type names, whose materialisation the code does not implement.
- Expression typing in the last pass, its hint stack and its mismatch reports: the type of an initialiser plays no part in the scopes; the pass keeps only its scope insertions and the reports about them.
- The wording, severity and position of reports.
- The visit order of units by strongly connected components: any order of units is covered.
- Hash functions of the interner's tables: finite maps stand for them, so a hash is taken to depend on the key alone.
- Reading of a `DeclNode` that the constructor leaves unset: slots start null.
- The result stack inside the individual passes: they return results directly, and `Visitors` proves both stacks for any pass at all.
- Path joining and the file system: any functions from paths to paths and from paths to imports.
- Labels of printed nodes: the kind and any text after it; the colours, addresses and ranges in that text are not modelled.
- Padding of line numbers in diagnostics.
- The qualifier of an unknown type: it leaves no trace in the type's name, so names are decoded for unknown types without one.
- The run-time library, the collector pass, the package manager, the command line and the DOT output.
- ImportClosure.TranslationUnitContext.TraverseFileImports: is stated for roots from which finitely many paths can be reached; from any other root the loop does not end (TraverseAtMost).
- ASTPrinter.PrintTree: trees higher than the 32 flags are excluded, as the flags would be indexed out of range.
