/**
 The saved-settings file's keys, in the order they are written and read, and what each may hold.
 */
module SettingsKeys {
  import opened Basics

  predicate OneLine(s: string) {
    forall i | 0 <= i < |s| :: s[i] != '\n'
  }

  predicate Plain(s: string) {
    forall i | 0 <= i < |s| :: s[i] != ' ' && s[i] != '\n'
  }

  predicate Distinct(ss: seq<string>) {
    forall i, j | 0 <= i < j < |ss| :: ss[i] != ss[j]
  }

  type Bound = n: int | 0 <= n <= 65535

  type Key = s: string | Plain(s) && |s| <= 17

  predicate Readable(ss: seq<string>) {
    Distinct(ss) && forall i | 0 <= i < |ss| :: OneLine(ss[i]) && |ss[i]| <= 30
  }

  // Strings one of which is saved, told apart when it is read back.
  type Table = ss: seq<string> | ss != [] && Readable(ss) witness [""]

  // The flag that is always saved as 0, whole numbers within bounds, a display band of the
  // current frame, one of a table of strings, any string, or a value only carried along here.
  datatype Kind = Flag | Whole(min: Bound, max: Bound) | Band | Choice(strings: Table) | Free | Opaque

  datatype Field = Field(name: Key, kind: Kind)

  predicate NamedApart(fs: seq<Field>) {
    forall i, j | 0 <= i < j < |fs| :: fs[i].name != fs[j].name
  }

  type Fields = fs: seq<Field> | NamedApart(fs)

  const MODES: Table := ["Operational", "Test"]
  const FRAME_HEIGHTS: Table := ["285 lines", "481 lines", "1024 lines"]
  const FRAME_WIDTHS: Table := ["640 pixels", "1024 pixels"]
  const COMPRESSION_OPTIONS: Table := ["Unsupported", "Off", "Both", "Only"]
  const NO_YES: Table := ["No", "Yes"]
  const VIEWER_TYPES: Table := ["Frame", "Waterfall", "Combo"]
  const NAV_DURATIONS: Table := ["30 secs", "1 min", "2 mins", "5 mins"]
  const OFF_ON: Table := ["Off", "On"]
  const REC_MARGINS: Table := ["0 %", "0.1 %", "0.2 %", "0.5 %", "1 %", "2 %", "5 %", "10 %", "20 %", "50 %"]
  const OBC_INTERFACES: Table := ["None", "FPGA"]
  const CAL_PERIODS: Table := [
    "Disabled", "1 sec", "2 secs", "3 secs", "4 secs", "5 secs",
    "6 secs", "7 secs", "8 secs", "9 secs", "10 secs", "11 secs", "12 secs"]
  const SHUTTER_INTERFACES: Table := ["None", "Maxon"]
  const GPS_SERIAL_BAUDS: Table := ["38400 bps", "115200 bps"]
  const GPS_SERIAL_PARITIES: Table := ["None", "Even", "Odd"]
  const GPS_INIT_MODES: Table := ["Ground", "Air"]
  const IMAGE_SIMS: Table := ["None", "DN increases with line", "DN increases with frame"]
  const GPS_SIMS: Table := ["None", "All messages", "All messages except #3"]

  const OPERATION: Fields := [
    Field("firsttime", Flag),
    Field("mode", Choice(MODES)),
    Field("framerateindex", Whole(0, 6)),
    Field("frameheight", Choice(FRAME_HEIGHTS)),
    Field("framewidth", Choice(FRAME_WIDTHS)),
    Field("compressionoption", Choice(COMPRESSION_OPTIONS)),
    Field("fmscontroloption", Choice(NO_YES))]
  const VIEWING: Fields := [
    Field("viewertype", Choice(VIEWER_TYPES)),
    Field("redband", Band),
    Field("greenband", Band),
    Field("blueband", Band),
    Field("downtrackskip", Whole(0, 9)),
    Field("stretchmin", Whole(0, MAX_DN)),
    Field("stretchmax", Whole(0, MAX_DN)),
    Field("greengain", Opaque),
    Field("bluegain", Opaque)]
  const CORRECTION: Fields := [
    Field("darksuboption", Choice(NO_YES)),
    Field("darksubdir0", Free),
    Field("darksubdir1", Free),
    Field("darksubdir2", Free),
    Field("darksubdir3", Free),
    Field("navduration", Choice(NAV_DURATIONS)),
    Field("reflectionoption", Choice(OFF_ON))]
  const RECORDING: Fields := [
    Field("recmargin", Choice(REC_MARGINS)),
    Field("prefix", Free),
    Field("productrootdir0", Free),
    Field("productrootdir1", Free),
    Field("productrootdir2", Free),
    Field("productrootdir3", Free)]
  const CALIBRATION: Fields := [
    Field("obcinterface", Choice(OBC_INTERFACES)),
    Field("dark1calperiod", Choice(CAL_PERIODS)),
    Field("dark2calperiod", Choice(CAL_PERIODS)),
    Field("mediumcalperiod", Choice(CAL_PERIODS)),
    Field("brightcalperiod", Choice(CAL_PERIODS)),
    Field("lasercalperiod", Choice(CAL_PERIODS)),
    Field("shutterinterface", Choice(SHUTTER_INTERFACES))]
  const GPS: Fields := [
    Field("gpsserialbaud", Choice(GPS_SERIAL_BAUDS)),
    Field("gpsserialparity", Choice(GPS_SERIAL_PARITIES)),
    Field("gpsserialtxinvert", Choice(OFF_ON)),
    Field("gpsinitmode", Choice(GPS_INIT_MODES))]
  const ECS: Fields := [
    Field("ecsconnected", Choice(NO_YES)),
    Field("ecshost", Free),
    Field("ecsport", Whole(1, 65535)),
    Field("ecstimeoutinms", Whole(0, 5000)),
    Field("ecsusername", Free),
    Field("ecspassword", Opaque)]
  const DEVICES: Fields := [
    Field("mountused", Choice(NO_YES)),
    Field("mountdev", Free),
    Field("headlessdev", Free),
    Field("imagesim", Choice(IMAGE_SIMS)),
    Field("gpssim", Choice(GPS_SIMS)),
    Field("diagoption", Choice(OFF_ON))]

  const VIEW: Fields := OPERATION + VIEWING
  const RECORD: Fields := CORRECTION + RECORDING
  const REST: Fields := (CALIBRATION + GPS) + (ECS + DEVICES)

  // Any two of the three can be told apart.
  const VIEW_RECORD: Fields := VIEW + RECORD
  const VIEW_REST: Fields := VIEW + REST
  const RECORD_REST: Fields := RECORD + REST

  // In the order of the file.
  const FIELDS: seq<Field> := VIEW + RECORD + REST

  lemma JoinApart(a: seq<Field>, b: seq<Field>, c: seq<Field>)
    requires NamedApart(a + b) && NamedApart(a + c) && NamedApart(b + c)
    ensures NamedApart(a + b + c)
  {
    var all := a + b + c;
    forall i, j | 0 <= i < j < |all| ensures all[i].name != all[j].name {
      if j < |a + b| {
        assert all[i] == (a + b)[i] && all[j] == (a + b)[j];
      } else if i < |a| {
        assert all[i] == (a + c)[i] && all[j] == (a + c)[j - |b|];
      } else {
        assert all[i] == (b + c)[i - |a|] && all[j] == (b + c)[j - |a|];
      }
    }
  }

  /** No two settings share a key. */
  lemma FieldsApart()
    ensures NamedApart(FIELDS)
  {
    assert NamedApart(VIEW_RECORD) && NamedApart(VIEW_REST) && NamedApart(RECORD_REST);
    hide NamedApart;
    JoinApart(VIEW, RECORD, REST);
  }
}
