/** The factory as the program runs it: loops that push instructions and draw thread ids. */
module InstructionFactory {
  import opened Common
  import opened Scopes
  import opened Workload
  import opened Factory
  import opened Declarations
  import opened SharedVariables

  /** On one path, resolving further names changes no earlier answer. */
  lemma SamePathStable(t: Tables, path: Path, x: string, y: string)
    requires path != [] && Bound(t, path, x)
    ensures Lookup(AfterGetKey(t, path, y).keys, path, x) == Lookup(t.keys, path, x)
  {
    if Lookup(t.keys, path, y).None? && x != y {
      var u := AfterGetKey(t, path, y);
      var k := Innermost(t.keys, path, x).value;
      assert Binds(u.keys, path[k], x);
      forall j | k < j < |path| ensures !Binds(u.keys, path[j], x) {
        assert !Binds(t.keys, path[j], x);
      }
    }
  }

  ghost predicate Below(l: seq<Instr<string>>, bound: nat) {
    forall x :: x in l ==> Height(x) < bound
  }

  /** n more copies of one instruction, each in a fresh scope. */
  function CompileCopies(done: (seq<Instr<nat>>, Tables), prefix: string, path: Path, i: Instr<string>, n: int)
    : (seq<Instr<nat>>, Tables)
    requires path != []
  {
    if n <= 0 then done
    else
      var (kids, u) := CompileCopies(done, prefix, path, i, n - 1);
      var (kid, w) := Compile(AfterSpawn(u, path), prefix, path + [u.nextId], i);
      (kids + [kid], w)
  }

  /** None of the n copies meets an undeclared lock or unlock. */
  predicate DeclaredCopies(done: (seq<Instr<nat>>, Tables), prefix: string, path: Path, i: Instr<string>, n: int)
    requires path != []
  {
    n <= 0 || (
      var u := CompileCopies(done, prefix, path, i, n - 1).1;
      DeclaredCopies(done, prefix, path, i, n - 1) && Declared(AfterSpawn(u, path), prefix, path + [u.nextId], i))
  }

  lemma CopiesBelow(l: seq<Instr<string>>, i: Instr<string>, n: int, bound: nat)
    requires Below(l, bound) && Height(i) < bound
    ensures Below(l + Copies(i, n), bound)
  {
    CopiesAre(i, n);
  }

  lemma {:induction false} CopiesLast(t: Tables, prefix: string, path: Path, l: seq<Instr<string>>, i: Instr<string>,
                                      n: int, bound: nat, base: (seq<Instr<nat>>, Tables))
    requires path != [] && Below(l, bound) && Height(i) < bound && Below(l + Copies(i, n), bound)
    requires base == CompileAll(t, prefix, path, l, true, bound)
    ensures CompileAll(t, prefix, path, l + Copies(i, n), true, bound) == CompileCopies(base, prefix, path, i, n)
  {
    if n <= 0 {
      assert l + Copies(i, n) == l;
    } else {
      var rest := l + Copies(i, n - 1);
      CopiesBelow(l, i, n - 1, bound);
      CopiesLast(t, prefix, path, l, i, n - 1, bound, base);
      CompileNext(t, prefix, path, rest, i, bound);
      CopiesAppend(l, i, n, rest);
    }
  }

  lemma {:induction false} DeclaredLast(t: Tables, prefix: string, path: Path, l: seq<Instr<string>>, i: Instr<string>,
                                        n: int, bound: nat, base: (seq<Instr<nat>>, Tables))
    requires path != [] && Below(l, bound) && Height(i) < bound && Below(l + Copies(i, n), bound)
    requires base == CompileAll(t, prefix, path, l, true, bound)
    ensures DeclaredAll(t, prefix, path, l + Copies(i, n), true, bound)
       <==> DeclaredAll(t, prefix, path, l, true, bound) && DeclaredCopies(base, prefix, path, i, n)
  {
    if n <= 0 {
      assert l + Copies(i, n) == l;
    } else {
      var rest := l + Copies(i, n - 1);
      CopiesBelow(l, i, n - 1, bound);
      DeclaredLast(t, prefix, path, l, i, n - 1, bound, base);
      CopiesLast(t, prefix, path, l, i, n - 1, bound, base);
      OneMoreDeclared(t, prefix, path, rest, i, n, bound, base);
      CopiesAppend(l, i, n, rest);
    }
  }

  lemma OneMoreDeclared(t: Tables, prefix: string, path: Path, rest: seq<Instr<string>>, i: Instr<string>,
                        n: int, bound: nat, base: (seq<Instr<nat>>, Tables))
    requires path != [] && Below(rest, bound) && Height(i) < bound && n > 0
    requires CompileAll(t, prefix, path, rest, true, bound) == CompileCopies(base, prefix, path, i, n - 1)
    ensures Below(rest + [i], bound)
    ensures var u := CompileCopies(base, prefix, path, i, n - 1).1;
            var last := Declared(AfterSpawn(u, path), prefix, path + [u.nextId], i);
            && DeclaredAll(t, prefix, path, rest + [i], true, bound)
                 == (DeclaredAll(t, prefix, path, rest, true, bound) && last)
            && DeclaredCopies(base, prefix, path, i, n) == (DeclaredCopies(base, prefix, path, i, n - 1) && last)
  {
    DeclaredNext(t, prefix, path, rest, i, bound);
  }

  lemma CopiesAppend(l: seq<Instr<string>>, i: Instr<string>, n: int, rest: seq<Instr<string>>)
    requires n > 0 && rest == l + Copies(i, n - 1)
    ensures l + Copies(i, n) == rest + [i]
  {}

  lemma CompileNext(t: Tables, prefix: string, path: Path, l: seq<Instr<string>>, i: Instr<string>, bound: nat)
    requires path != [] && Below(l, bound) && Height(i) < bound
    ensures Below(l + [i], bound)
    ensures var (kids, u) := CompileAll(t, prefix, path, l, true, bound);
            var (kid, w) := Compile(AfterSpawn(u, path), prefix, path + [u.nextId], i);
            CompileAll(t, prefix, path, l + [i], true, bound) == (kids + [kid], w)
  {
    assert (l + [i])[..|l|] == l;
  }

  lemma DeclaredNext(t: Tables, prefix: string, path: Path, l: seq<Instr<string>>, i: Instr<string>, bound: nat)
    requires path != [] && Below(l, bound) && Height(i) < bound
    ensures Below(l + [i], bound)
    ensures var u := CompileAll(t, prefix, path, l, true, bound).1;
            DeclaredAll(t, prefix, path, l + [i], true, bound) ==
              (DeclaredAll(t, prefix, path, l, true, bound)
               && Declared(AfterSpawn(u, path), prefix, path + [u.nextId], i))
  {
    assert (l + [i])[..|l|] == l;
  }

  /** After n copies: their code, the tables, and whether all of them were declared. */
  ghost predicate CopiesDone(done: (seq<Instr<nat>>, Tables), prefix: string, path: Path, i: Instr<string>, n: nat,
                             kids: seq<Instr<nat>>, u: Tables, declared: bool)
    requires path != []
  {
    (kids, u) == CompileCopies(done, prefix, path, i, n) && declared == DeclaredCopies(done, prefix, path, i, n)
  }

  lemma CopiesStep(done: (seq<Instr<nat>>, Tables), prefix: string, path: Path, i: Instr<string>, n: nat,
                   kids: seq<Instr<nat>>, u: Tables, declared: bool)
    requires path != [] && CopiesDone(done, prefix, path, i, n, kids, u, declared)
    ensures var (kid, w) := Compile(AfterSpawn(u, path), prefix, path + [u.nextId], i);
            CopiesDone(done, prefix, path, i, n + 1, kids + [kid], w,
                       declared && Declared(AfterSpawn(u, path), prefix, path + [u.nextId], i))
  {}

  class InstructionFactory {
    const vars: SharedVariables
    var currentThreadId: int
    var absolutePathKey: nat
    var exited: bool   // a mutex that was not declared has ended the program
    ghost var paths: map<int, Path>
    ghost var base: seq<Value>

    constructor (vars: SharedVariables)
      ensures this.vars == vars && currentThreadId == 0 && paths == map[] && !exited
    {
      this.vars := vars;
      currentThreadId, absolutePathKey, exited, paths, base := 0, 0, false, map[], [];
    }

    ghost function Scope(): Tables
      reads this, vars
    {
      vars.Scope(currentThreadId, paths)
    }

    /**
     * During a parse: the slots present when compilation began hold what they held, among them the
     * absolute path that constructors prepend; the slots allocated since hold the default value.
     */
    ghost predicate Parsing(prefix: string)
      reads this, vars
    {
      && absolutePathKey < |base| <= |vars.variables|
      && base[absolutePathKey] == StringValue(prefix)
      && (forall k :: 0 <= k < |base| ==> vars.variables[k] == base[k])
      && (forall k :: |base| <= k < |vars.variables| ==> vars.variables[k] == IntValue(0))
    }

    method GetAbsolutePath() returns (path: string)
      requires absolutePathKey < |vars.variables| && vars.variables[absolutePathKey].StringValue?
      ensures vars.variables[absolutePathKey] == StringValue(path)
    {
      var value := vars.Get(absolutePathKey);
      path := value.s;
    }

    method GetKey(threadIds: Path, name: string, ghost prefix: string) returns (key: nat)
      requires threadIds != [] && Parsing(prefix)
      modifies vars
      ensures Scope() == AfterGetKey(old(Scope()), threadIds, name)
      ensures Bound(Scope(), threadIds, name) && key == Slot(Scope(), threadIds, name)
      ensures Parsing(prefix)
    {
      key := vars.GetKey(threadIds, name);
    }

    /** GenerateThreadId, with the path the new id is generated under. */
    method GenerateThreadId(ghost path: Path) returns (id: int)
      modifies this`currentThreadId, this`paths
      ensures id == old(currentThreadId)
      ensures Scope() == AfterSpawn(old(Scope()), path)
    {
      id := currentThreadId;
      paths := paths[id := path + [id]];
      currentThreadId := currentThreadId + 1;
    }

    method ResolveFile(threadIds: Path, file: FileName<string>, ghost prefix: string) returns (r: FileName<nat>)
      requires threadIds != [] && Parsing(prefix)
      modifies vars
      ensures Scope() == AfterKeys(old(Scope()), threadIds, FileRefs(file))
      ensures r == Factory.ResolveFile(Scope(), threadIds, prefix, file)
      ensures Parsing(prefix)
      ensures forall x :: x in FileRefs(file) ==> Bound(Scope(), threadIds, x)
    {
      match file
      case PathName(path) =>
        var absolute := GetAbsolutePath();
        r := PathName(absolute + path);
      case Input(name) =>
        assert AfterKeys(Scope(), threadIds, []) == Scope();
        assert [name][..0] == [];
        var key := GetKey(threadIds, name, prefix);
        r := Input(key);
      case RandomName => r := RandomName;
    }

    /**
     * CreateFromProtoInstruction computes exactly the compiled form, and leaves exactly its tables; the
     * program exits on the way exactly if it meets an undeclared lock or unlock.
     */
    method CreateFromProtoInstruction(threadIds: Path, i: Instr<string>, ghost prefix: string) returns (c: Instr<nat>)
      requires threadIds != [] && Parsing(prefix)
      modifies vars, this`currentThreadId, this`paths, this`exited
      ensures (c, Scope()) == Compile(old(Scope()), prefix, threadIds, i)
      ensures Parsing(prefix)
      ensures exited <==> old(exited) || !Declared(old(Scope()), prefix, threadIds, i)
      decreases Height(i), 3
    {
      ChildrenLower(i);
      match i.body
      case InstructionSet(l, iterate) =>
        var kids := CreateChildren(threadIds, l, prefix, Height(i));
        ghost var u := Scope();
        if iterate.Some? {
          var it := iterate.value;
          ghost var names := [it.list, it.item];
          assert names[..1] == [it.list] && names[..1][..0] == [] && AfterKeys(u, threadIds, []) == u;
          var list := GetKey(threadIds, it.list, prefix);
          SamePathStable(Scope(), threadIds, it.list, it.item);
          var item := GetKey(threadIds, it.item, prefix);
          assert Scope() == AfterKeys(u, threadIds, names);
          c := Instr(i.repeat, Body.InstructionSet(kids, Some(Iterate(list, item, it.order, it.reseeding, it.seed))));
        } else {
          c := Instr(i.repeat, Body.InstructionSet(kids, None));
        }
      case Multithreading(fork, threads) =>
        var kids := CreateThreads(threadIds, threads, prefix, Height(i));
        c := Instr(i.repeat, Body.Multithreading(fork, Single(kids)));
      case _ => c := CreateLeaf(threadIds, i, prefix);
    }

    /** The cases without children. */
    method CreateLeaf(threadIds: Path, i: Instr<string>, ghost prefix: string) returns (c: Instr<nat>)
      requires threadIds != [] && Parsing(prefix) && !i.body.InstructionSet? && !i.body.Multithreading?
      modifies vars, this`exited
      ensures (c, Scope()) == Compile(old(Scope()), prefix, threadIds, i)
      ensures Parsing(prefix)
      ensures exited <==> old(exited) || LockUndeclared(old(Scope()), threadIds, i.body)
    {
      ghost var t0 := Scope();
      assert CompileAll(t0, prefix, threadIds, Children(i.body), i.body.Multithreading?, Height(i)) == ([], t0);
      if i.body.OpenFile? || i.body.DeleteFile? || i.body.ReadDirectory? {
        c := CreateNamed(threadIds, i, prefix);
        return;
      }
      match i.body
      case CloseFile(fd) =>
        var key := OneKey(threadIds, fd, prefix);
        c := Instr(i.repeat, Body.CloseFile(key));
      case ResizeFile(fd, size) =>
        var key := OneKey(threadIds, fd, prefix);
        c := Instr(i.repeat, Body.ResizeFile(key, size));
      case ResizeFileRandom(fd, min, max, seed, reseeding) =>
        var key := OneKey(threadIds, fd, prefix);
        c := Instr(i.repeat, Body.ResizeFileRandom(key, min, max, seed, reseeding));
      case WriteFile(fd, rw, fsync) =>
        var key := OneKey(threadIds, fd, prefix);
        c := Instr(i.repeat, Body.WriteFile(key, rw, fsync));
      case ReadFile(fd, rw, advice) =>
        var key := OneKey(threadIds, fd, prefix);
        c := Instr(i.repeat, Body.ReadFile(key, rw, advice));
      case Lock(mutex) =>
        CheckDeclared(threadIds, mutex);
        var key := OneKey(threadIds, mutex, prefix);
        c := Instr(i.repeat, Body.Lock(key));
      case Unlock(mutex) =>
        CheckDeclared(threadIds, mutex);
        var key := OneKey(threadIds, mutex, prefix);
        c := Instr(i.repeat, Body.Unlock(key));
      case NoVariables(work) => c := Instr(i.repeat, Body.NoVariables(work));
    }

    /** The cases that name a file or a directory. */
    method CreateNamed(threadIds: Path, i: Instr<string>, ghost prefix: string) returns (c: Instr<nat>)
      requires threadIds != [] && Parsing(prefix) && (i.body.OpenFile? || i.body.DeleteFile? || i.body.ReadDirectory?)
      modifies vars
      ensures (c, Scope()) == Compile(old(Scope()), prefix, threadIds, i)
      ensures Parsing(prefix)
    {
      ghost var t0 := Scope();
      assert CompileAll(t0, prefix, threadIds, Children(i.body), i.body.Multithreading?, Height(i)) == ([], t0);
      match i.body
      case OpenFile(file, output, flags) =>
        var outputKey: Option<nat> := None;
        if output.Some? {
          var key := GetKey(threadIds, output.value, prefix);
          outputKey := Some(key);
        }
        ghost var u := Scope();
        var f := ResolveFile(threadIds, file, prefix);
        OpenRefs(t0, u, threadIds, i.body, outputKey);
        c := Instr(i.repeat, Body.OpenFile(f, outputKey, flags));
      case DeleteFile(file) =>
        var f := ResolveFile(threadIds, file, prefix);
        c := Instr(i.repeat, Body.DeleteFile(f));
      case ReadDirectory(directory, output) =>
        var key := OneKey(threadIds, output, prefix);
        var absolute := GetAbsolutePath();
        c := Instr(i.repeat, Body.ReadDirectory(absolute + directory, key));
    }

    /** What lock and unlock demand of their mutex: some scope on the path has declared the name. */
    method CheckDeclared(threadIds: Path, name: string)
      modifies this`exited
      ensures exited <==> old(exited) || Lookup(vars.keys, threadIds, name).None?
    {
      var found := vars.Exists(threadIds, name);
      if !found { exited := true; }
    }

    method OneKey(threadIds: Path, name: string, ghost prefix: string) returns (key: nat)
      requires threadIds != [] && Parsing(prefix)
      modifies vars
      ensures Scope() == AfterKeys(old(Scope()), threadIds, [name])
      ensures key == Slot(Scope(), threadIds, name)
      ensures Parsing(prefix)
    {
      assert [name][..0] == [] && AfterKeys(Scope(), threadIds, []) == Scope();
      key := GetKey(threadIds, name, prefix);
    }

    lemma OpenRefs(t: Tables, u: Tables, path: Path, b: Body<string>, key: Option<nat>)
      requires path != [] && b.OpenFile?
      requires u == if b.output.Some? then AfterGetKey(t, path, b.output.value) else t
      requires b.output.Some? ==> Bound(u, path, b.output.value) && key == Some(Slot(u, path, b.output.value))
      ensures AfterKeys(u, path, FileRefs(b.file)) == AfterKeys(t, path, Refs(b))
      ensures b.output.Some? ==> key == Some(Slot(AfterKeys(t, path, Refs(b)), path, b.output.value))
    {
      var refs := Refs(b);
      assert AfterKeys(t, path, []) == t && AfterKeys(u, path, []) == u;
      if b.output.Some? {
        assert [b.output.value][..0] == [];
        assert AfterKeys(t, path, [b.output.value]) == u;
        if b.file.Input? {
          assert refs[..1] == [b.output.value] && [b.file.v][..0] == [];
          assert AfterKeys(t, path, refs) == AfterGetKey(u, path, b.file.v) == AfterKeys(u, path, [b.file.v]);
          SamePathStable(u, path, b.output.value, b.file.v);
        } else {
          assert refs == [b.output.value];
        }
      } else {
        assert refs == FileRefs(b.file);
      }
    }

    /** The loop over the instructions of a set. */
    method CreateChildren(threadIds: Path, l: seq<Instr<string>>, ghost prefix: string, ghost bound: nat)
      returns (kids: seq<Instr<nat>>)
      requires threadIds != [] && Parsing(prefix)
      requires forall x :: x in l ==> Height(x) < bound
      modifies vars, this`currentThreadId, this`paths, this`exited
      ensures (kids, Scope()) == CompileAll(old(Scope()), prefix, threadIds, l, false, bound)
      ensures Parsing(prefix)
      ensures exited <==> old(exited) || !DeclaredAll(old(Scope()), prefix, threadIds, l, false, bound)
      decreases bound, 0
    {
      kids := [];
      for n := 0 to |l|
        invariant (kids, Scope()) == CompileAll(old(Scope()), prefix, threadIds, l[..n], false, bound)
        invariant Parsing(prefix)
        invariant exited <==> old(exited) || !DeclaredAll(old(Scope()), prefix, threadIds, l[..n], false, bound)
      {
        assert l[..n + 1][..n] == l[..n];
        var kid := CreateFromProtoInstruction(threadIds, l[n], prefix);
        kids := kids + [kid];
      }
      assert l[..|l|] == l;
    }

    /** The inner of the two loops: one copy per spawned thread. */
    method CreateCopies(threadIds: Path, i: Instr<string>, spawn: int, ghost prefix: string,
                        done: seq<Instr<nat>>)
      returns (kids: seq<Instr<nat>>)
      requires threadIds != [] && Parsing(prefix)
      modifies vars, this`currentThreadId, this`paths, this`exited
      ensures (kids, Scope()) == CompileCopies((done, old(Scope())), prefix, threadIds, i, spawn)
      ensures Parsing(prefix)
      ensures exited <==> old(exited) || !DeclaredCopies((done, old(Scope())), prefix, threadIds, i, spawn)
      decreases Height(i), 5
    {
      kids := done;
      ghost var start, declared := (done, Scope()), true;
      var n := 0;
      while n < spawn
        invariant 0 <= n && (n <= spawn || n == 0)
        invariant CopiesDone(start, prefix, threadIds, i, n, kids, Scope(), declared)
        invariant Parsing(prefix) && (exited <==> old(exited) || !declared)
      {
        ghost var u := Scope();
        CopiesStep(start, prefix, threadIds, i, n, kids, u, declared);
        declared := declared && Declared(AfterSpawn(u, threadIds), prefix, threadIds + [u.nextId], i);
        var kid := CreateCopy(threadIds, i, prefix);
        kids := kids + [kid];
        n := n + 1;
      }
    }

    /** One copy, in a scope of its own. */
    method CreateCopy(threadIds: Path, i: Instr<string>, ghost prefix: string) returns (kid: Instr<nat>)
      requires threadIds != [] && Parsing(prefix)
      modifies vars, this`currentThreadId, this`paths, this`exited
      ensures var u := old(Scope());
              (kid, Scope()) == Compile(AfterSpawn(u, threadIds), prefix, threadIds + [u.nextId], i)
      ensures Parsing(prefix)
      ensures var u := old(Scope());
              exited <==> old(exited) || !Declared(AfterSpawn(u, threadIds), prefix, threadIds + [u.nextId], i)
      decreases Height(i), 4
    {
      var id := GenerateThreadId(threadIds);
      kid := CreateFromProtoInstruction(threadIds + [id], i, prefix);
    }

    /** The two nested loops over threads and spawned copies. */
    method CreateThreads(threadIds: Path, threads: seq<Thread<string>>, ghost prefix: string, ghost bound: nat)
      returns (kids: seq<Instr<nat>>)
      requires threadIds != [] && Parsing(prefix)
      requires Below(Expand(threads), bound) && forall t :: t in threads ==> ThreadHeight(t) < bound
      modifies vars, this`currentThreadId, this`paths, this`exited
      ensures (kids, Scope()) == CompileAll(old(Scope()), prefix, threadIds, Expand(threads), true, bound)
      ensures Parsing(prefix)
      ensures exited <==> old(exited) || !DeclaredAll(old(Scope()), prefix, threadIds, Expand(threads), true, bound)
      decreases bound, 2
    {
      kids := [];
      for t := 0 to |threads|
        invariant Below(Expand(threads[..t]), bound)
        invariant (kids, Scope()) == CompileAll(old(Scope()), prefix, threadIds, Expand(threads[..t]), true, bound)
        invariant Parsing(prefix)
        invariant exited
             <==> old(exited) || !DeclaredAll(old(Scope()), prefix, threadIds, Expand(threads[..t]), true, bound)
      {
        var thread := threads[t];
        assert thread in threads && threads[..t + 1][..t] == threads[..t];
        CopiesBelow(Expand(threads[..t]), thread.instruction, thread.spawn, bound);
        CopiesLast(old(Scope()), prefix, threadIds, Expand(threads[..t]), thread.instruction, thread.spawn, bound,
                   (kids, Scope()));
        DeclaredLast(old(Scope()), prefix, threadIds, Expand(threads[..t]), thread.instruction, thread.spawn, bound,
                     (kids, Scope()));
        kids := CreateCopies(threadIds, thread.instruction, thread.spawn, prefix, kids);
      }
      assert threads[..|threads|] == threads;
    }
  }
}
