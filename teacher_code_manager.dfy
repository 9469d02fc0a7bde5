/** The teacher-pairing registry (`TeacherCodeManager`): a one-to-one map
    from teacher username to a six-digit pairing code, created on demand and
    read backwards to resolve a code to its teacher. */
module TeacherCodes {
  import opened Common
  import opened Decimal
  import opened BiMaps

  const CodeWidth: nat := 6

  /** The bounds of `gen_range(1..999999)`, whose end is excluded. */
  const FirstDraw: nat := 1
  const LastDraw: nat := 999998

  /** The code issued for a draw: its decimal digits, left-padded with `'0'`
      to six characters. Distinct draws give distinct codes, since the code
      denotes the draw. */
  function Code(draw: nat): (code: string)
    ensures AllDigits(code) && Value(code) == draw
    ensures draw < Pow10(CodeWidth) ==> |code| == CodeWidth
  {
    var digits := Show(draw);
    ValueLeadingZeros(|ZeroPad(digits, CodeWidth)| - |digits|, digits);
    if draw < Pow10(CodeWidth) then
      ShowLength(draw, CodeWidth);
      ZeroPad(digits, CodeWidth)
    else
      ZeroPad(digits, CodeWidth)
  }

  lemma CodeOf42()
    ensures Code(42) == "000042"
  {
    assert Show(42) == "42";
  }

  /** What the registry can ever hold as a code. */
  ghost predicate IsCode(code: string)
  {
    |code| == CodeWidth && AllDigits(code) && FirstDraw <= Value(code) <= LastDraw
  }

  class TeacherCodeManager {
    /** The `BiMap<String, String>` from teacher username to code. */
    var codes: map<string, string>

    ghost predicate Valid()
      reads this
    {
      Injective(codes) && forall u | u in codes :: IsCode(codes[u])
    }

    /** `TeacherCodeManager::new`. */
    constructor ()
      ensures Valid() && codes == map[]
    {
      codes := map[];
    }

    /** `Handler<GetCode>`, get-or-create. A teacher who has a code gets it
        back and nothing changes. Otherwise `draw` (the random number,
        `FirstDraw..=LastDraw`) is turned into a code and inserted; a
        collision with another teacher's code is not checked, so that
        teacher's pair is evicted as `BiMap::insert` does. Either way the
        teacher now holds the returned code. */
    method GetCode(username: string, draw: nat) returns (code: string)
      requires Valid() && FirstDraw <= draw <= LastDraw
      modifies this
      ensures Valid()
      ensures username in old(codes) ==> code == old(codes)[username] && codes == old(codes)
      ensures username !in old(codes) ==> code == Code(draw) && codes == Insert(old(codes), username, code)
      ensures username in codes && codes[username] == code && IsCode(code)
    {
      if username in codes {
        code := codes[username];
      } else {
        code := Code(draw);
        codes := Insert(codes, username, code);
      }
    }

    /** `Handler<GetTeacher>`: the teacher holding `code`, or `None` when no
        teacher does. Nothing changes. */
    method GetTeacher(code: string) returns (teacher: Option<string>)
      requires Valid()
      ensures teacher.Some? <==> code in codes.Values
      ensures teacher.Some? ==> teacher.value in codes && codes[teacher.value] == code
      ensures forall u | u in codes && codes[u] == code :: teacher == Some(u)
    {
      if code in codes.Values {
        var u :| u in codes && codes[u] == code;
        teacher := Some(u);
      } else {
        teacher := None;
      }
    }
  }
}
