/** The landing page's terminal that types the install commands one
    character at a time, then shows the simulated output and starts over.
    Each timer callback and each visibility change is one method; the delays
    themselves are not modelled. */
module AnimatedTerminal {
  import opened Text

  /** The commands the terminal types. */
  const Commands: seq<string> := [
    "git clone https://github.com/snowarch/inir.git",
    "cd inir",
    "./setup install"
  ]

  /** The text the copy button copies: the commands, one per line. */
  function CopyText(commands: seq<string>): string {
    Join(commands, "\n")
  }

  /** Pasting the copied text gives back the commands, one per line. */
  lemma CopyTextLines(commands: seq<string>)
    requires |commands| >= 1 && forall k :: 0 <= k < |commands| ==> '\n' !in commands[k]
    ensures Split(CopyText(commands), '\n') == commands
  {
    SplitJoin(commands, '\n');
  }

  /** Typing steps left: two per character position of the lines still to
      type (the characters, the full line and its pause), less what is typed. */
  function StepsFrom(commands: seq<string>, k: int): nat
    requires 0 <= k <= |commands|
    decreases |commands| - k
  {
    if k == |commands| then 0 else |commands[k]| + 2 + StepsFrom(commands, k + 1)
  }

  class Terminal {
    const commands: seq<string>
    var completedLines: seq<string>
    var activeLine: int
    var charIndex: int
    var done: bool
    var showOutput: bool
    var started: bool

    /** The lines typed so far are the commands before the active one, the
        active line is typed at most one position past its end, and the
        output shows only once everything is typed. */
    ghost predicate Valid()
      reads this
    {
      0 <= activeLine <= |commands|
      && completedLines == commands[..activeLine]
      && 0 <= charIndex
      && (activeLine < |commands| ==> charIndex <= |commands[activeLine]| + 1)
      && (activeLine == |commands| ==> charIndex == 0)
      && (done ==> started && activeLine == |commands|)
      && (showOutput ==> done)
      && (!started ==> activeLine == 0 && charIndex == 0)
    }

    /** How many steps the animation still takes before it is done. */
    ghost function Remaining(): nat
      reads this
      requires Valid()
    {
      if done then 0
      else
        StepsFromCovers(commands, activeLine);
        1 + StepsFrom(commands, activeLine) - charIndex
    }

    static lemma StepsFromCovers(commands: seq<string>, k: int)
      requires 0 <= k <= |commands|
      ensures k < |commands| ==> StepsFrom(commands, k) == |commands[k]| + 2 + StepsFrom(commands, k + 1)
    {
    }

    /** The initial state: nothing typed, not started. */
    constructor ()
      ensures Valid()
      ensures commands == Commands
      ensures completedLines == [] && activeLine == 0 && charIndex == 0
      ensures !done && !showOutput && !started
    {
      commands := Commands;
      completedLines := [];
      activeLine := 0;
      charIndex := 0;
      done := false;
      showOutput := false;
      started := false;
    }

    /** The visibility observer: the animation starts the first time the
        terminal is on screen. */
    method Observe(isIntersecting: bool)
      requires Valid()
      modifies this
      ensures Valid()
      ensures started == (old(started) || isIntersecting)
      ensures completedLines == old(completedLines) && activeLine == old(activeLine) && charIndex == old(charIndex)
      ensures done == old(done) && showOutput == old(showOutput)
    {
      if isIntersecting && !started {
        started := true;
      }
    }

    /** One run of the typing effect and the timer it arms: finish when all
        lines are typed, else move to the next line once the active one is
        typed past its end, else type one more character. Nothing moves
        before the start or after the finish, and every move brings the
        finish one step closer. */
    method Step()
      requires Valid()
      modifies this
      ensures Valid()
      ensures showOutput == old(showOutput) && started == old(started)
      ensures old(!started || done) ==>
                completedLines == old(completedLines) && activeLine == old(activeLine)
                && charIndex == old(charIndex) && done == old(done)
      ensures old(started && !done && activeLine >= |commands|) ==>
                done && completedLines == old(completedLines) && activeLine == old(activeLine)
                && charIndex == old(charIndex)
      ensures old(started && !done && activeLine < |commands| && charIndex > |commands[activeLine]|) ==>
                !done && completedLines == old(completedLines) + [commands[old(activeLine)]]
                && activeLine == old(activeLine) + 1 && charIndex == 0
      ensures old(started && !done && activeLine < |commands| && charIndex <= |commands[activeLine]|) ==>
                !done && completedLines == old(completedLines) && activeLine == old(activeLine)
                && charIndex == old(charIndex) + 1
      ensures done && !old(done) ==> activeLine >= |commands|
      ensures old(started && !done) ==> Remaining() < old(Remaining())
    {
      if !started || done {
        return;
      }
      if activeLine >= |commands| {
        done := true;
        return;
      }
      var cmd := commands[activeLine];
      StepsFromCovers(commands, activeLine);
      if charIndex > |cmd| {
        completedLines := completedLines + [cmd];
        activeLine := activeLine + 1;
        charIndex := 0;
      } else {
        charIndex := charIndex + 1;
      }
    }

    /** The timer armed on finishing: show the simulated output. */
    method RevealOutput()
      requires Valid() && done
      modifies this
      ensures Valid()
      ensures showOutput
      ensures completedLines == old(completedLines) && activeLine == old(activeLine) && charIndex == old(charIndex)
      ensures done == old(done) && started == old(started)
    {
      showOutput := true;
    }

    /** The timer armed once the output shows: start the animation over,
        leaving it started. */
    method Reset()
      requires Valid() && done && showOutput
      modifies this
      ensures Valid()
      ensures completedLines == [] && activeLine == 0 && charIndex == 0
      ensures !done && !showOutput && started
    {
      completedLines := [];
      activeLine := 0;
      charIndex := 0;
      done := false;
      showOutput := false;
    }

    /** The text of the line being typed, `commands[activeLine].slice(0,
        charIndex)`: always a prefix of that command, the whole of it once
        typed past its end. */
    function TypedText(): (t: string)
      reads this
      requires Valid() && activeLine < |commands|
      ensures t <= commands[activeLine]
      ensures |t| == (if charIndex <= |commands[activeLine]| then charIndex else |commands[activeLine]|)
    {
      var cmd := commands[activeLine];
      if charIndex <= |cmd| then cmd[..charIndex] else cmd
    }
  }

  /** Once done, every command has been typed and kept in order. */
  lemma DoneTypedAll(t: Terminal)
    requires t.Valid() && t.done
    ensures t.completedLines == t.commands
  {
    assert t.commands[..|t.commands|] == t.commands;
  }
}
