/** Assembling, writing, loading and executing in one go, on the code that does it. */
module EndToEnd {
  import opened Words
  import opened Isa
  import opened Assembler
  import opened Image
  import opened Simulation
  import opened Machine

  /**
   A source that assembles, with disjoint segments, its code outside the screen and an instruction
   at address 0, runs on the emulator as it reads, for as many turns as there are events.
   */
  method BuildAndRun(p: Program, memory: array<byte>, events: seq<Event>)
    returns (ok: bool, status: Status, machine: RunState)
    requires memory.Length == 0x1_0000
    modifies memory
    ensures fresh(machine) && machine.Valid()
    ensures ok == Assembles(p)
    ensures ok ==> Ends(Run(Boot(p, old(memory[..])), events), status, machine.View())
    ensures ok && CodeApart(p) && CodeOffScreen(p) && LineAt(p, 0, 0).Some? ==>
              Matches(p, SrcRun(p, Src(LineAt(p, 0, 0).value, Boot(p, old(memory[..])).core), events),
                      Run(Boot(p, old(memory[..])), events))
  {
    hide Assembles, CodeApart, CodeOffScreen, Matches, SrcRun, FileOf, Loaded, Final, Blocks, LineAt, Ends, Run;
    ghost var junk := memory[..];
    var compiler := new Compiler(|p|);
    ok := compiler.Compile(p);
    if ok {
      var file := WriteAsm(compiler.lines, compiler.dp, p);
      var loaded := Image.Load(file, memory);
      assert memory[..] == Loaded(FileOf(p, |p|), junk);
    }
    machine := new RunState(memory);
    status := Status.Going;
    if ok {
      status := machine.Execute(events);
      if CodeApart(p) && CodeOffScreen(p) && LineAt(p, 0, 0).Some? { ImageRunsAsSource(p, junk, events); }
    }
  }
}
