/**
 * qdCameraMode: how the camera follows the active character (the mode,
 * a working time, the scrolling speed and distance, a smooth switch flag
 * and an offset of the screen centre), its script element and its save
 * data.
 *
 * The mode enumeration and has_work_time are declared in
 * qd_camera_mode.h, which is not part of this model: the value of
 * MODE_UNASSIGNED is left unspecified, and whether a mode has a working
 * time is a parameter of the script writer.
 */
module CameraModes {
  import opened Wrappers
  import opened ScriptTags

  /** MODE_UNASSIGNED; its number is in qd_camera_mode.h. */
  const ModeUnassigned: int

  /** The fields load_data restores: everything but the mode. */
  datatype Settings = Settings(workTime: real, speed: real, distance: int, center: Vec2, smoothSwitch: bool)

  /** save_data: the mode, time, speed, distance, centre x and y, then 1 or 0 for the smooth switch. */
  function Encode(mode: int, s: Settings): (t: seq<Token>)
    ensures |t| == 7 && t[0] == Int32(mode)
  {
    [Int32(mode), Float32(s.workTime), Float32(s.speed), Int32(s.distance),
     Int32(s.center.x), Int32(s.center.y), Byte(if s.smoothSwitch then 1 else 0)]
  }

  /** Whether a stream starts with the seven values load_data reads, of their kinds. */
  predicate Readable(t: seq<Token>) {
    |t| >= 7 && t[0].Int32? && t[1].Float32? && t[2].Float32? && t[3].Int32? &&
    t[4].Int32? && t[5].Int32? && t[6].Byte?
  }

  /**
   * load_data: the seven values in save order; the mode is read into a
   * local and dropped, and any nonzero switch byte turns the smooth switch
   * on. None when the stream does not hold them.
   */
  function Decode(t: seq<Token>): (r: Option<(Settings, seq<Token>)>)
    ensures r.Some? <==> Readable(t)
    ensures r.Some? ==> r.value.1 == t[7..] && (r.value.0.smoothSwitch <==> t[6].b != 0)
  {
    if !Readable(t) then None
    else Some((Settings(t[1].f, t[2].f, t[3].i, Vec2(t[4].i, t[5].i), t[6].b != 0), t[7..]))
  }

  /** Loading what was saved restores every field but the mode, whatever follows in the stream. */
  lemma DecodeEncode(mode: int, s: Settings, rest: seq<Token>)
    ensures Decode(Encode(mode, s) + rest) == Some((s, rest))
  {
    var t := Encode(mode, s) + rest;
    assert t[7..] == rest;
  }

  /** The mode is written but not read back: two modes with the same settings load alike. */
  lemma DecodeIgnoresMode(m1: int, m2: int, s: Settings)
    ensures m1 != m2 ==> Encode(m1, s) != Encode(m2, s)
    ensures Decode(Encode(m1, s)) == Decode(Encode(m2, s))
  {
    if m1 != m2 {
      assert Encode(m1, s)[0] != Encode(m2, s)[0];
    }
  }

  /** The attributes every camera_mode element has. */
  function AlwaysAttrs(mode: int, speed: real, distance: int): seq<Piece> {
    [Attr("type", Number(mode)), Attr("scrolling_speed", Decimal(speed)), Attr("scrolling_dist", Number(distance))]
  }

  /** The screen centre attribute, written only when either coordinate is nonzero. */
  function CenterAttr(c: Vec2): seq<Piece> {
    if c.x != 0 || c.y != 0 then [Attr("camera_screen_center", Pair(c.x, c.y))] else []
  }

  /** The time attribute, written only for a mode with a working time. */
  function TimeAttr(hasWorkTime: bool, t: real): seq<Piece> {
    if hasWorkTime then [Attr("time", Decimal(t))] else []
  }

  /** The smooth switch attribute, written only when the switch is on. */
  function SwitchAttr(on: bool): seq<Piece> {
    if on then [Attr("smooth_switch", Number(1))] else []
  }

  /** The key of an attribute piece, or "" for another piece. */
  function KeyOf(p: Piece): string {
    if p.Attr? then p.key else ""
  }

  /** Whether some attribute has the key. */
  predicate HasKey(attrs: seq<Piece>, key: string) {
    exists k :: 0 <= k < |attrs| && KeyOf(attrs[k]) == key
  }

  class CameraMode {
    var mode: int
    var workTime: real
    var speed: real
    var distance: int
    var smoothSwitch: bool
    var center: Vec2

    /** The constructor: unassigned mode, time 0, speed and distance 100, no smooth switch, centre (0,0). */
    constructor()
      ensures mode == ModeUnassigned && Current() == Settings(0.0, 100.0, 100, Vec2(0, 0), false)
    {
      mode := ModeUnassigned;
      workTime := 0.0;
      speed := 100.0;
      distance := 100;
      smoothSwitch := false;
      center := Vec2(0, 0);
    }

    /** The fields load_data restores. */
    function Current(): Settings
      reads this
    {
      Settings(workTime, speed, distance, center, smoothSwitch)
    }

    /**
     * save_data, both overloads: the values go out one after another in
     * the order Encode gives.
     */
    method SaveData(out: seq<Token>) returns (r: seq<Token>)
      ensures r == out + Encode(mode, Current())
    {
      r := out + [Int32(mode)];
      r := r + [Float32(workTime)];
      r := r + [Float32(speed)];
      r := r + [Int32(distance)];
      r := r + [Int32(center.x)];
      r := r + [Int32(center.y)];
      if smoothSwitch {
        r := r + [Byte(1)];
      } else {
        r := r + [Byte(0)];
      }
    }

    /**
     * load_data: the fields are filled from the stream in save order, and
     * the mode is kept. A stream that does not hold the values leaves the
     * object as it was and reports false.
     */
    method LoadData(t: seq<Token>) returns (ok: bool, rest: seq<Token>)
      modifies this
      ensures ok <==> Decode(t).Some?
      ensures ok ==> Current() == Decode(t).value.0 && rest == Decode(t).value.1
      ensures !ok ==> Current() == old(Current()) && rest == t
      ensures mode == old(mode)
    {
      if !Readable(t) {
        return false, t;
      }
      var discarded := t[0].i;
      workTime := t[1].f;
      speed := t[2].f;
      distance := t[3].i;
      center := Vec2(t[4].i, t[5].i);
      var switchFlag := t[6].b;
      smoothSwitch := switchFlag != 0;
      return true, t[7..];
    }

    /**
     * The attributes save_script writes: type, scrolling speed and
     * distance always; then the screen centre, the time and the smooth
     * switch, each only when the script has it (ScriptAttrsChoice).
     */
    function ScriptAttrs(hasWorkTime: bool): (attrs: seq<Piece>)
      reads this
      ensures |attrs| >= 3 && forall k :: 0 <= k < |attrs| ==> attrs[k].Attr?
    {
      AlwaysAttrs(mode, speed, distance) + CenterAttr(center) + TimeAttr(hasWorkTime, workTime) + SwitchAttr(smoothSwitch)
    }

    /** save_script: a self-closed camera_mode element with those attributes. */
    function SaveScript(hasWorkTime: bool): (ps: seq<Piece>)
      reads this
      ensures WellFormed(ps, "camera_mode")
    {
      var attrs := ScriptAttrs(hasWorkTime);
      SelfClosedWellFormed("camera_mode", attrs);
      [Open("camera_mode")] + attrs + [SelfClose]
    }
  }

  /**
   * save_script writes the type, speed and distance first; the screen
   * centre exactly when it is not (0,0); the time exactly when the mode has
   * a working time; smooth_switch exactly when it is on.
   */
  lemma ScriptAttrsChoice(m: CameraMode, hasWorkTime: bool)
    ensures m.ScriptAttrs(hasWorkTime)[..3] == AlwaysAttrs(m.mode, m.speed, m.distance)
    ensures HasKey(m.ScriptAttrs(hasWorkTime), "camera_screen_center") <==> m.center != Vec2(0, 0)
    ensures HasKey(m.ScriptAttrs(hasWorkTime), "time") <==> hasWorkTime
    ensures HasKey(m.ScriptAttrs(hasWorkTime), "smooth_switch") <==> m.smoothSwitch
  {
    var a := AlwaysAttrs(m.mode, m.speed, m.distance);
    var c := CenterAttr(m.center);
    var w := TimeAttr(hasWorkTime, m.workTime);
    var s := SwitchAttr(m.smoothSwitch);
    var all := m.ScriptAttrs(hasWorkTime);
    assert all == a + c + w + s;
    PartKeys(m.mode, m.speed, m.distance, m.center, hasWorkTime, m.workTime, m.smoothSwitch, "camera_screen_center");
    PartKeys(m.mode, m.speed, m.distance, m.center, hasWorkTime, m.workTime, m.smoothSwitch, "time");
    PartKeys(m.mode, m.speed, m.distance, m.center, hasWorkTime, m.workTime, m.smoothSwitch, "smooth_switch");
    KeysOfConcat(a, c, w, s, "camera_screen_center");
    KeysOfConcat(a, c, w, s, "time");
    KeysOfConcat(a, c, w, s, "smooth_switch");
  }

  /** Which keys each part of the attribute list has. */
  lemma PartKeys(mode: int, speed: real, distance: int, c: Vec2, hasWorkTime: bool, t: real, on: bool, key: string)
    requires key in {"camera_screen_center", "time", "smooth_switch"}
    ensures !HasKey(AlwaysAttrs(mode, speed, distance), key)
    ensures HasKey(CenterAttr(c), key) <==> key == "camera_screen_center" && c != Vec2(0, 0)
    ensures HasKey(TimeAttr(hasWorkTime, t), key) <==> key == "time" && hasWorkTime
    ensures HasKey(SwitchAttr(on), key) <==> key == "smooth_switch" && on
  {
    var a := AlwaysAttrs(mode, speed, distance);
    assert KeyOf(a[0]) == "type" && KeyOf(a[1]) == "scrolling_speed" && KeyOf(a[2]) == "scrolling_dist";
    if CenterAttr(c) != [] {
      assert KeyOf(CenterAttr(c)[0]) == "camera_screen_center";
    }
    if hasWorkTime {
      assert KeyOf(TimeAttr(hasWorkTime, t)[0]) == "time";
    }
    if on {
      assert KeyOf(SwitchAttr(on)[0]) == "smooth_switch";
    }
  }

  /** A key is in four joined attribute lists when it is in one of them. */
  lemma KeysOfConcat(a: seq<Piece>, c: seq<Piece>, w: seq<Piece>, s: seq<Piece>, key: string)
    ensures HasKey(a + c + w + s, key) <==> HasKey(a, key) || HasKey(c, key) || HasKey(w, key) || HasKey(s, key)
  {
    var all := a + c + w + s;
    if HasKey(all, key) {
      var k :| 0 <= k < |all| && KeyOf(all[k]) == key;
      if k < |a| {
        assert all[k] == a[k];
      } else if k < |a| + |c| {
        assert all[k] == c[k - |a|];
      } else if k < |a| + |c| + |w| {
        assert all[k] == w[k - |a| - |c|];
      } else {
        assert all[k] == s[k - |a| - |c| - |w|];
      }
    }
    if HasKey(a, key) {
      var k :| 0 <= k < |a| && KeyOf(a[k]) == key;
      assert all[k] == a[k];
    }
    if HasKey(c, key) {
      var k :| 0 <= k < |c| && KeyOf(c[k]) == key;
      assert all[|a| + k] == c[k];
    }
    if HasKey(w, key) {
      var k :| 0 <= k < |w| && KeyOf(w[k]) == key;
      assert all[|a| + |c| + k] == w[k];
    }
    if HasKey(s, key) {
      var k :| 0 <= k < |s| && KeyOf(s[k]) == key;
      assert all[|a| + |c| + |w| + k] == s[k];
    }
  }
}
