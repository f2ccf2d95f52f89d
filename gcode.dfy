/**
  The `Gcode` object of `Gcode.cpp`: a parsed command with its parameter
  letters and values, the shared G/M code and the flags other modules read
  and set. The dispatching stream is an opaque handle (`stream`).
 */
module Gcodes {

  import opened Wrappers
  import S = GcodeSpec

  /** `get_next_word`: one word from `next`, stepping over a character that is not a letter. */
  method GetNextWord(line: string, next: nat, strtof: string -> real)
    returns (ok: bool, after: nat, letter: char, value: real)
    requires next <= |line|
    ensures var s := S.NextWord(line, next);
      after == s.next && ok == s.word.Some? &&
      (ok ==> letter == s.word.value.letter && value == strtof(s.word.value.text))
  {
    if next == |line| {
      return false, next, ' ', 0.0;
    }
    var c := line[next];
    after := next + 1;
    if !S.IsLetter(c) {
      return false, after, ' ', 0.0;
    }
    letter := c;
    var pos := after;
    while after < |line|
      invariant pos <= after <= |line|
      invariant S.NumberEnd(line, pos) == S.NumberEnd(line, after)
      decreases |line| - after
    {
      if S.IsNumberChar(line[after]) {
        after := after + 1;
      } else {
        break;
      }
    }
    if after == pos {
      return false, after, letter, 0.0;
    }
    value := strtof(line[pos..after]);
    ok := true;
  }

  class Gcode {
    var keys: seq<char>
    var values: seq<real>
    var hasG: bool
    var hasM: bool
    /** `m` and `g`: one `unsigned int` in a union. */
    var code: int
    var valid: bool
    var addNl: bool
    var acceptedByModule: bool
    var millimetersOfTravel: real
    var stream: int
    var txtAfterOk: string

    /** What parsing decides. */
    function Args(): S.Words
      reads this
    {
      S.Words(keys, values, hasG, hasM, code)
    }

    /** The fields parsing and stripping leave alone. */
    function Others(): (bool, bool, real, int, string)
      reads this
    {
      (addNl, acceptedByModule, millimetersOfTravel, stream, txtAfterOk)
    }

    /** Every parameter letter has its value. */
    predicate Aligned()
      reads this
    {
      |keys| == |values|
    }

    /** `Gcode(command, stream)`: the flags cleared, then the words parsed. */
    constructor (command: string, stream: int, strtof: string -> real)
      ensures Args() == S.Parse(command, strtof).args
      ensures valid == S.Parse(command, strtof).valid
      ensures Aligned()
      ensures !addNl && !acceptedByModule && millimetersOfTravel == 0.0
      ensures this.stream == stream && txtAfterOk == []
    {
      keys := [];
      values := [];
      hasG := false;
      hasM := false;
      code := 0;
      addNl := false;
      this.stream := stream;
      millimetersOfTravel := 0.0;
      acceptedByModule := false;
      valid := false;
      txtAfterOk := [];
      new;
      ParseGcodeWords(command, strtof);
    }

    /**
      `parse_gcode_words`: strips white space, reads words until one
      fails and records whether the whole line was read.
     */
    method ParseGcodeWords(command: string, strtof: string -> real)
      modifies this`keys, this`values, this`hasG, this`hasM, this`code, this`valid
      ensures Args() == S.ParseFrom(old(Args()), command, strtof).args
      ensures valid == S.ParseFrom(old(Args()), command, strtof).valid
      ensures old(Aligned()) ==> Aligned()
      ensures Others() == old(Others())
    {
      var line := S.StripSpace(command);
      ghost var target := S.Fold(Args(), S.Scan(line, 0).words, strtof);
      var next := 0;
      var start := 0;
      while true
        invariant next <= |line|
        invariant S.Fold(Args(), S.Scan(line, next).words, strtof) == target
        invariant S.Scan(line, next).stop == S.Scan(line, 0).stop
        invariant old(Aligned()) ==> Aligned()
        decreases |line| - next
      {
        start := next;
        var ok, after, letter, value := GetNextWord(line, next, strtof);
        if !ok {
          next := after;
          break;
        }
        S.ScanStep(line, next, Args(), strtof);
        next := after;
        if letter == 'G' {
          hasG := true;
          code := S.Trunc(value);
        } else if letter == 'M' {
          hasM := true;
          code := S.Trunc(value);
        } else {
          keys := keys + [letter];
          values := values + [value];
        }
      }
      valid := start == |line|;
    }

    /** `has_letter`. */
    method HasLetter(letter: char) returns (b: bool)
      ensures b <==> letter in keys
    {
      for i := 0 to |keys|
        invariant letter !in keys[..i]
      {
        if keys[i] == letter {
          return true;
        }
      }
      return false;
    }

    /** `get_value`: the value of the first word with this letter, or 0. */
    method GetValue(letter: char) returns (v: real)
      requires Aligned()
      ensures v == S.ValueOf(keys, values, letter)
      ensures letter in keys ==> exists i :: S.FirstAt(keys, letter, i) && v == values[i]
      ensures letter !in keys ==> v == 0.0
    {
      S.ValueOfFirst(keys, values, letter);
      for i := 0 to |keys|
        invariant letter !in keys[..i]
        invariant S.ValueFrom(keys, values, letter, i) == S.ValueOf(keys, values, letter)
      {
        if keys[i] == letter {
          return values[i];
        }
      }
      return 0.0;
    }

    /** `get_num_args`: the number of parameter words. */
    function NumArgs(): (n: nat)
      reads this
      ensures n == |keys|
    {
      |keys|
    }

    /** `mark_as_taken`. */
    method MarkAsTaken()
      modifies this
      ensures acceptedByModule
      ensures Args() == old(Args()) && valid == old(valid) && addNl == old(addNl)
      ensures millimetersOfTravel == old(millimetersOfTravel)
      ensures stream == old(stream) && txtAfterOk == old(txtAfterOk)
    {
      acceptedByModule := true;
    }

    /** `strip_parameters`: for G0 to G3, the X, Y, Z, I, J and K words are erased. */
    method StripParameters()
      requires Aligned()
      modifies this`keys, this`values
      ensures Aligned()
      ensures (keys, values) == if hasG && code < 4 then S.StripAxes(old(keys), old(values)) else (old(keys), old(values))
      ensures hasG == old(hasG) && hasM == old(hasM) && code == old(code) && valid == old(valid)
      ensures Others() == old(Others())
    {
      if hasG && code < 4 {
        keys, values := EraseAxes(keys, values);
      }
    }

    /** The erase loop of `strip_parameters`, on the two vectors. */
    static method EraseAxes(ks0: seq<char>, vs0: seq<real>) returns (ks: seq<char>, vs: seq<real>)
      requires |ks0| == |vs0|
      ensures (ks, vs) == S.StripAxes(ks0, vs0)
    {
      ks, vs := ks0, vs0;
      var i := 0;
      while i < |ks|
        invariant i <= |ks| == |vs|
        invariant S.StripAxes(ks0, vs0).0 == ks[..i] + S.StripAxes(ks[i..], vs[i..]).0
        invariant S.StripAxes(ks0, vs0).1 == vs[..i] + S.StripAxes(ks[i..], vs[i..]).1
        decreases |ks| - i
      {
        var c := ks[i];
        S.StripStep(ks, vs, i);
        if S.IsAxis(c) {
          ghost var k0, v0 := ks, vs;
          ks := ks[..i] + ks[i + 1..];
          vs := vs[..i] + vs[i + 1..];
          assert ks[..i] == k0[..i] && ks[i..] == k0[i + 1..];
          assert vs[..i] == v0[..i] && vs[i..] == v0[i + 1..];
        } else {
          assert ks[..i + 1] == ks[..i] + [c] && vs[..i + 1] == vs[..i] + [vs[i]];
          i := i + 1;
        }
      }
      assert S.StripAxes(ks[i..], vs[i..]) == ([], []);
      assert ks[..i] + [] == ks && vs[..i] + [] == vs;
    }

    /** The copy constructor; `valid` and, with neither a G nor an M word, the code are left indeterminate. */
    constructor Copy(other: Gcode)
      ensures keys == other.keys && values == other.values
      ensures millimetersOfTravel == other.millimetersOfTravel && addNl == other.addNl
      ensures stream == other.stream && txtAfterOk == other.txtAfterOk
      ensures hasM == other.hasM && hasG == other.hasG
      ensures (hasM || hasG) ==> code == other.code
      ensures !acceptedByModule
    {
      keys := other.keys;
      values := other.values;
      millimetersOfTravel := other.millimetersOfTravel;
      addNl := other.addNl;
      stream := other.stream;
      acceptedByModule := false;
      txtAfterOk := other.txtAfterOk;
      hasM := other.hasM;
      hasG := other.hasG;
      if other.hasM || other.hasG {
        code := other.code;
      } else {
        var indeterminate: int :| true;
        code := indeterminate;
      }
      var indeterminate: bool :| true;
      valid := indeterminate;
    }

    /**
      `operator=`: copies everything but `valid` unless assigning to itself,
      keeps the code when the source has neither a G nor an M word, and
      always clears `accepted_by_module`.
     */
    method Assign(other: Gcode)
      modifies this
      ensures keys == old(other.keys) && values == old(other.values)
      ensures millimetersOfTravel == old(other.millimetersOfTravel) && addNl == old(other.addNl)
      ensures stream == old(other.stream) && txtAfterOk == old(other.txtAfterOk)
      ensures hasM == old(other.hasM) && hasG == old(other.hasG)
      ensures code == if old(other.hasM || other.hasG) then old(other.code) else old(code)
      ensures valid == old(valid)
      ensures !acceptedByModule
    {
      if this != other {
        keys := other.keys;
        values := other.values;
        millimetersOfTravel := other.millimetersOfTravel;
        addNl := other.addNl;
        stream := other.stream;
        txtAfterOk := other.txtAfterOk;
        hasM := other.hasM;
        if hasM {
          code := other.code;
        }
        hasG := other.hasG;
        if hasG {
          code := other.code;
        }
      }
      acceptedByModule := false;
    }
  }
}
