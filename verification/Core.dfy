/**
 Compiler arguments: parsing them and rewriting them for a remote build
 (core.go).
 */
module Core {
  import opened Wrappers

  datatype Build = Build(args: seq<string>, oindex: int, iindex: int, cindex: int, distributable: bool)

  // ---------- What the indices mean ----------

  /** i is the last position of x, or -1 if there is none. */
  predicate IsLast(args: seq<string>, x: string, i: int) {
    -1 <= i < |args| && (i >= 0 ==> args[i] == x) && forall k :: i < k < |args| ==> args[k] != x
  }

  /** An argument that is no flag and does not directly follow -o. */
  predicate IsInput(args: seq<string>, i: nat)
    requires i < |args|
  {
    args[i] != "" && args[i][0] != '-' && (i > 0 ==> args[i - 1] != "-o")
  }

  /** The output slot follows the last -o, the type flag is the last -c, and the
      input is the last argument that is no flag and no target of -o. */
  predicate IsParse(args: seq<string>, b: Build) {
    b.args == args &&
    IsLast(args, "-c", b.cindex) && (b.distributable <==> "-c" in args) &&
    (if b.oindex == -1 then "-o" !in args else b.oindex >= 1 && IsLast(args, "-o", b.oindex - 1)) &&
    -1 <= b.iindex < |args| && (b.iindex >= 0 ==> IsInput(args, b.iindex)) &&
    forall k :: b.iindex < k < |args| ==> !IsInput(args, k)
  }

  lemma ParseIsUnique(args: seq<string>, b: Build, b': Build)
    requires IsParse(args, b) && IsParse(args, b')
    ensures b == b'
  {
    assert b.oindex >= 1 ==> args[b.oindex - 1] in args;
    assert b'.oindex >= 1 ==> args[b'.oindex - 1] in args;
  }

  /** Parses compiler arguments; None is the crash on an empty argument. */
  method ParseArgs(args: seq<string>) returns (b: Option<Build>)
    ensures b.None? <==> "" in args
    ensures b.Some? ==> IsParse(args, b.value)
  {
    var distributable := false;
    var outputIndex, inputIndex, cmdIndex := -1, -1, -1;
    for i := 0 to |args|
      invariant "" !in args[..i]
      invariant IsLast(args[..i], "-c", cmdIndex) && (distributable <==> cmdIndex != -1)
      invariant if outputIndex == -1 then IsLast(args[..i], "-o", -1)
                else outputIndex >= 1 && IsLast(args[..i], "-o", outputIndex - 1)
      invariant -1 <= inputIndex < i && (inputIndex >= 0 ==> IsInput(args, inputIndex))
      invariant forall k :: inputIndex < k < i ==> !IsInput(args, k)
    {
      var arg := args[i];
      if arg == "-c" {
        distributable := true;
        cmdIndex := i;
      }
      if arg == "-o" {
        outputIndex := i + 1;
      } else if arg == "" {
        return None;
      } else if arg[0] != '-' && outputIndex != i {
        inputIndex := i;
      }
    }
    assert args[..|args|] == args;
    b := Some(Build(args, outputIndex, inputIndex, cmdIndex, distributable));
  }

  /** The input slot is never the output slot. */
  lemma InputIsNotOutput(args: seq<string>, b: Build)
    requires IsParse(args, b) && b.iindex >= 0
    ensures b.iindex != b.oindex
  {
  }

  // ---------- The paths of a build ----------

  function Output(b: Build): string {
    if 0 <= b.oindex < |b.args| then b.args[b.oindex] else ""
  }

  function Input(b: Build): string {
    if 0 <= b.iindex < |b.args| then b.args[b.iindex] else ""
  }

  // ---------- Rewriting the arguments of a build ----------

  predicate InRange(b: Build) {
    0 <= b.oindex < |b.args| && 0 <= b.iindex < |b.args|
  }

  /** The arguments Compile runs the compiler with: a copy whose output and input
      slots are overwritten.  None is the crash on an index out of range. */
  method CompileArgs(b: Build, tempPath: string, input: string) returns (r: Option<seq<string>>)
    ensures r.Some? <==> InRange(b)
    ensures r.Some? ==> r.value == b.args[b.oindex := tempPath][b.iindex := input]
  {
    if !InRange(b) {
      return None;
    }
    var gccArgs := new string[|b.args|](i requires 0 <= i < |b.args| => b.args[i]);
    assert gccArgs[..] == b.args;
    gccArgs[b.oindex] := tempPath;
    gccArgs[b.iindex] := input;
    r := Some(gccArgs[..]);
  }

  predicate IsAbsolute(path: string) {
    |path| > 0 && path[0] == '/'
  }

  /** Parsing the rewritten arguments finds the same slots, and the new paths in
      them, if and only if the type flag does not stand in the output slot. */
  lemma RewritingKeepsTheParse(b: Build, tempPath: string, input: string, b': Build)
    requires IsParse(b.args, b) && InRange(b) && IsAbsolute(tempPath) && IsAbsolute(input)
    requires IsParse(b.args[b.oindex := tempPath][b.iindex := input], b')
    ensures b'.oindex == b.oindex && b'.iindex == b.iindex
    ensures Output(b') == tempPath && Input(b') == input
    ensures b'.cindex == b.cindex && b'.distributable == b.distributable <==> b.cindex != b.oindex
  {
    InputIsNotOutput(b.args, b);
    var args, args' := b.args, b.args[b.oindex := tempPath][b.iindex := input];
    assert forall k :: 0 <= k < |args| && k != b.oindex && k != b.iindex ==> args'[k] == args[k];
    assert IsLast(args', "-o", b.oindex - 1);
    assert args'[b.oindex - 1] in args';
    assert forall k :: 0 <= k < |args| ==> (IsInput(args', k) <==> IsInput(args, k));
    if b.cindex != b.oindex {
      assert IsLast(args', "-c", b.cindex);
    }
  }

  /** Whether the rewritten arguments still ask for a compilation is decided by
      the type flags outside the output slot, wherever the last one stands. */
  lemma RewritingKeepsTheFlagIff(b: Build, tempPath: string, input: string, b': Build)
    requires IsParse(b.args, b) && InRange(b) && IsAbsolute(tempPath) && IsAbsolute(input)
    requires IsParse(b.args[b.oindex := tempPath][b.iindex := input], b')
    ensures b'.distributable == b.distributable <==>
            !b.distributable || exists k :: 0 <= k < |b.args| && k != b.oindex && b.args[k] == "-c"
  {
    var args, args' := b.args, b.args[b.oindex := tempPath][b.iindex := input];
    assert forall k :: 0 <= k < |args| && k != b.oindex && k != b.iindex ==> args'[k] == args[k];
    assert args'[b.iindex] == input && (b.oindex != b.iindex ==> args'[b.oindex] == tempPath);
    assert forall k :: 0 <= k < |args| && args[k] == "-c" && k != b.oindex ==> args'[k] in args';
  }

  /** That condition can fail: the arguments -o -c a.c parse with the type flag in
      the output slot, and rewriting them loses it. */
  lemma RewritingCanLoseTheFlag(tempPath: string, input: string) returns (b: Build)
    requires IsAbsolute(tempPath) && IsAbsolute(input)
    ensures b == Build(["-o", "-c", "a.c"], 1, 2, 1, true) && IsParse(b.args, b) && InRange(b)
    ensures forall b' :: IsParse(b.args[b.oindex := tempPath][b.iindex := input], b') ==> !b'.distributable
  {
    b := Build(["-o", "-c", "a.c"], 1, 2, 1, true);
    assert b.args[1] == "-c" && b.args[0] == "-o" && b.args[2][0] == 'a';
    assert IsLast(b.args, "-c", 1) && IsLast(b.args, "-o", 0);
    assert b.args[0] != "-c" && b.args[2] != "-o";
    assert IsParse(b.args, b);
    var args' := b.args[b.oindex := tempPath][b.iindex := input];
    assert args' == ["-o", tempPath, input];
    assert "-c"[0] != '/';
    assert args'[0][1] != "-c"[1];
  }
}
