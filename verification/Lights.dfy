/** The notification LED, shared by three lights: battery, notifications and attention. */
module Lights {
  import opened Common

  const EINVAL := 22

  datatype FlashMode = NoFlash | Timed | Hardware | Other

  /** struct light_state_t; colours are unsigned 32-bit, alpha in the top byte. */
  datatype Request = Request(color: nat, mode: FlashMode, onMs: int, offMs: int)

  /** struct led_config */
  datatype Config = Config(rgb: nat, onMs: int, offMs: int)
  {
    predicate Lit() { rgb > 0 }
  }

  const DARK := Config(0, 0, 0)

  /** What the LED's sysfs files hold. */
  datatype Channel = Channel(brightness: nat, onMs: int, offMs: int)
  datatype Panel = Panel(red: Channel, green: Channel, blue: Channel)

  const OFF := Panel(Channel(0, 0, 0), Channel(0, 0, 0), Channel(0, 0, 0))

  // ---------- what the LED should show ----------

  function PanelOf(c: Config): Panel {
    Panel(Channel(c.rgb / 0x1_0000 % 0x100, c.onMs, c.offMs), Channel(c.rgb / 0x100 % 0x100, c.onMs, c.offMs),
          Channel(c.rgb % 0x100, c.onMs, c.offMs))
  }

  function ConfigOf(r: Request): Config {
    var flashing := r.mode == Timed || r.mode == Hardware;
    Config(r.color % 0x100_0000, if flashing then r.onMs else 0, if flashing then r.offMs else 0)
  }

  /** The framework's odd attention requests, fixed up. */
  function Fixed(r: Request): Request {
    if r.mode == NoFlash then r.(color := 0)
    else if r.mode == Hardware && r.onMs > 0 && r.offMs == 0 then r.(mode := NoFlash)
    else r
  }

  /** A light is 0 for battery, 1 for notifications, 2 for attention. */
  datatype Call = Ask(light: nat, request: Request)

  predicate Legal(calls: Trace<Call>) {
    match calls
    case Begin => true
    case Then(before, c) => Legal(before) && c.light < 3
  }

  /** What a light was last asked to be. */
  function Wanted(calls: Trace<Call>, light: nat): Config {
    match calls
    case Begin => DARK
    case Then(before, c) =>
      if c.light != light then Wanted(before, light)
      else ConfigOf(if light == 2 then Fixed(c.request) else c.request)
  }

  /** Of the lights below n, the one that is lit and has the highest priority, or -1. */
  function Highest(leds: seq<Config>, n: nat): (i: int)
    requires n <= |leds|
    ensures -1 <= i < n
    ensures i >= 0 ==> leds[i].Lit()
    ensures forall j | i < j < n :: !leds[j].Lit()
  {
    if n == 0 then -1 else if leds[n - 1].Lit() then n - 1 else Highest(leds, n - 1)
  }

  function Showing(leds: seq<Config>, i: int): Panel
    requires i < |leds|
  {
    if i < 0 then OFF else PanelOf(leds[i])
  }

  // ---------- the multiplexer ----------

  /** g_leds, g_cur_led and the LED itself. */
  datatype State = State(leds: seq<Config>, cur: int, panel: Panel)

  const INIT := State([DARK, DARK, DARK], -1, OFF)

  predicate Shaped(s: State) { |s.leds| == 3 && -1 <= s.cur < 3 }

  function Multiplexed(s: State, r: Request, light: int): (t: State)
    requires Shaped(s)
    ensures Shaped(t)
  {
    if light < 0 || light >= 3 then s
    else
      var c := ConfigOf(r);
      var leds := s.leds[light := c];
      if c.Lit() then if light >= s.cur then State(leds, light, PanelOf(c)) else s.(leds := leds)
      else if light == s.cur then State(leds, Highest(leds, light), Showing(leds, Highest(leds, light)))
      else s.(leds := leds)
  }

  function Next(s: State, c: Call): (t: State)
    requires Shaped(s)
    ensures Shaped(t)
  {
    Multiplexed(s, if c.light == 2 then Fixed(c.request) else c.request, c.light)
  }

  function Run(calls: Trace<Call>): (s: State)
    ensures Shaped(s)
  {
    match calls
    case Begin => INIT
    case Then(before, c) => Next(Run(before), c)
  }

  predicate ShowsHighest(s: State) {
    Shaped(s) && s.cur == Highest(s.leds, 3) && s.panel == Showing(s.leds, s.cur)
  }

  lemma HighestIs(leds: seq<Config>, n: nat, i: int)
    requires n <= |leds| && -1 <= i < n
    requires (i >= 0 ==> leds[i].Lit()) && forall j | i < j < n :: !leds[j].Lit()
    ensures Highest(leds, n) == i
  {
  }

  lemma StepShowsHighest(s: State, r: Request, light: int)
    requires ShowsHighest(s)
    ensures ShowsHighest(Multiplexed(s, r, light))
  {
    hide ConfigOf, PanelOf, Highest;
    var t := Multiplexed(s, r, light);
    HighestIs(t.leds, 3, t.cur);
  }

  /** The LED always shows the light of the highest priority among those last asked to be lit,
      in its colour and timing, and is off when there is none.
   */
  lemma {:induction false} LedShowsHighestWanted(calls: Trace<Call>)
    requires Legal(calls)
    ensures var s := Run(calls);
            && s.leds == [Wanted(calls, 0), Wanted(calls, 1), Wanted(calls, 2)]
            && ShowsHighest(s)
  {
    match calls
    case Begin =>
    case Then(before, c) =>
      LedShowsHighestWanted(before);
      hide ConfigOf, Fixed, PanelOf, ShowsHighest;
      StepShowsHighest(Run(before), if c.light == 2 then Fixed(c.request) else c.request, c.light);
  }

  /** What the LED is asked to show when battery (0) or notifications (1) are lit: the colour without
      its alpha, and the times if it is to flash.
   */
  lemma RequestShown(calls: Trace<Call>, r: Request, light: nat)
    requires Legal(calls) && light < 2 && r.color % 0x100_0000 != 0
    requires forall higher | light < higher < 3 :: !Wanted(calls, higher).Lit()
    ensures var s := Run(Then(calls, Ask(light, r)));
            s.cur == light && Shows(s.panel, r, r.mode == Timed || r.mode == Hardware)
  {
    var after := Then(calls, Ask(light, r));
    LedShowsHighestWanted(after);
    PanelShows(r);
    LitIs(r);
    WantedNow(calls, light, r);
    hide Run, ConfigOf, PanelOf, Highest, Fixed, Wanted, Shows;
    HighestIs(Run(after).leds, 3, light);
  }

  lemma WantedNow(calls: Trace<Call>, light: nat, r: Request)
    ensures Wanted(Then(calls, Ask(light, r)), light) == ConfigOf(if light == 2 then Fixed(r) else r)
    ensures forall other: nat | other != light :: Wanted(Then(calls, Ask(light, r)), other) == Wanted(calls, other)
  {
    hide ConfigOf, Fixed;
  }

  lemma LitIs(r: Request)
    ensures ConfigOf(r).Lit() <==> r.color % 0x100_0000 != 0
  {
  }

  lemma PanelShows(r: Request)
    ensures Shows(PanelOf(ConfigOf(r)), r, r.mode == Timed || r.mode == Hardware)
  {
    ColourBits(r.color);
  }

  /** The alpha is above the colours. */
  lemma ColourBits(color: nat)
    ensures var rgb := color % 0x100_0000;
            && rgb / 0x1_0000 % 0x100 == color / 0x1_0000 % 0x100
            && rgb / 0x100 % 0x100 == color / 0x100 % 0x100
            && rgb % 0x100 == color % 0x100
  {
    var rgb, alpha := color % 0x100_0000, color / 0x100_0000;
    assert color == 0x100 * (0x1_0000 * alpha) + rgb;
    LowByte(0x1_0000 * alpha, rgb);
    assert color / 0x100 == 0x100 * (0x100 * alpha) + rgb / 0x100;
    LowByte(0x100 * alpha, rgb / 0x100);
    assert color / 0x1_0000 == 0x100 * alpha + rgb / 0x1_0000;
    LowByte(alpha, rgb / 0x1_0000);
  }

  lemma LowByte(high: nat, low: nat)
    ensures (0x100 * high + low) % 0x100 == low % 0x100
  {
  }

  /** A panel of the request's colour, flashing in its times, or steady. */
  predicate Shows(p: Panel, r: Request, flashing: bool) {
    && p.red.brightness == r.color / 0x1_0000 % 0x100
    && p.green.brightness == r.color / 0x100 % 0x100
    && p.blue.brightness == r.color % 0x100
    && (forall c | c in {p.red, p.green, p.blue} ::
          if flashing then c.onMs == r.onMs && c.offMs == r.offMs else c.onMs == 0 && c.offMs == 0)
  }

  /** Attention (2) is above both: it is shown at once, but not if it is not to flash; and to flash with no
      time off is to be steady.
   */
  lemma AttentionShown(calls: Trace<Call>, r: Request)
    requires Legal(calls) && r.color % 0x100_0000 != 0
    ensures var s := Run(Then(calls, Ask(2, r)));
            && (r.mode != NoFlash ==>
                 && s.cur == 2
                 && Shows(s.panel, r, r.mode == Timed || (r.mode == Hardware && !(r.onMs > 0 && r.offMs == 0))))
            && (r.mode == NoFlash ==> s.cur < 2 && !s.leds[2].Lit())
  {
    var after := Then(calls, Ask(2, r));
    LedShowsHighestWanted(after);
    WantedNow(calls, 2, r);
    FixedIs(r);
    PanelShows(Fixed(r));
    LitIs(Fixed(r));
    hide Run, ConfigOf, PanelOf, Highest, Wanted, Fixed;
    if r.mode != NoFlash {
      HighestIs(Run(after).leds, 3, 2);
    }
  }

  lemma FixedIs(r: Request)
    ensures r.mode == NoFlash ==> Fixed(r).color == 0
    ensures r.mode != NoFlash ==>
              var f := Fixed(r);
              && f.color == r.color && f.onMs == r.onMs && f.offMs == r.offMs
              && (f.mode == Timed || f.mode == Hardware <==>
                   r.mode == Timed || (r.mode == Hardware && !(r.onMs > 0 && r.offMs == 0)))
  {
  }

  /** A light that is asked for no colour is dark, whatever its alpha, and the LED shows another one. */
  lemma DarkShown(calls: Trace<Call>, r: Request, light: nat)
    requires Legal(calls) && light < 3 && r.color % 0x100_0000 == 0
    ensures var s := Run(Then(calls, Ask(light, r)));
            && !s.leds[light].Lit() && s.cur != light
            && ((forall other | 0 <= other < 3 :: !s.leds[other].Lit()) ==>
                 s.cur == -1 && s.panel == Panel(Channel(0, 0, 0), Channel(0, 0, 0), Channel(0, 0, 0)))
  {
    LedShowsHighestWanted(Then(calls, Ask(light, r)));
    WantedNow(calls, light, r);
    LitIs(r);
    LitIs(Fixed(r));
    hide Run, ConfigOf, PanelOf, Wanted;
  }

  /** Only the last request of each light matters, not the order in which they came. */
  lemma LastRequestsDecide(a: Trace<Call>, b: Trace<Call>)
    requires Legal(a) && Legal(b)
    requires forall light: nat | light < 3 :: Wanted(a, light) == Wanted(b, light)
    ensures Run(a) == Run(b)
  {
    LedShowsHighestWanted(a);
    LedShowsHighestWanted(b);
  }

  /** Two LEDs that look alike have the same colour: no bit of it is dropped on the way out. */
  lemma PanelKeepsColour(c: Config, d: Config)
    requires c.rgb < 0x100_0000 && d.rgb < 0x100_0000 && PanelOf(c) == PanelOf(d)
    ensures c == d
  {
    PanelColour(c);
    PanelColour(d);
  }

  lemma PanelColour(c: Config)
    requires c.rgb < 0x100_0000
    ensures var p := PanelOf(c);
            c.rgb == 0x1_0000 * p.red.brightness + 0x100 * p.green.brightness + p.blue.brightness
  {
  }

  // ---------- the driver ----------

  /** The LED's sysfs files. Channels change together while rgb_start is 0. */
  class LedFiles {
    var red: int
    var green: int
    var blue: int
    var redMs: (int, int)
    var greenMs: (int, int)
    var blueMs: (int, int)
    var started: bool

    ghost predicate Shows(p: Panel)
      reads this
    {
      && started
      && (red, redMs) == (p.red.brightness, (p.red.onMs, p.red.offMs))
      && (green, greenMs) == (p.green.brightness, (p.green.onMs, p.green.offMs))
      && (blue, blueMs) == (p.blue.brightness, (p.blue.onMs, p.blue.offMs))
    }
  }

  class LightsDevice {
    const leds: array<Config>
    var cur: int
    const files: LedFiles
    ghost var panel: Panel

    ghost predicate Valid()
      reads this, leds, files
    {
      leds.Length == 3 && -1 <= cur < 3 && files.Shows(panel)
    }

    ghost function Abs(): State
      reads this, leds
    {
      State(leds[..], cur, panel)
    }

    /** g_leds and g_cur_led as they are initialised; the LED starts off. */
    constructor (off: LedFiles)
      requires off.Shows(OFF)
      ensures Valid() && Abs() == INIT && files == off && fresh(leds)
    {
      leds := new Config[3](_ => DARK);
      cur, files, panel := -1, off, OFF;
      new;
      assert leds[..] == INIT.leds;
    }

    method WriteLedsLocked(led: Option<Config>)
      requires Valid()
      modifies files, this`panel
      ensures Valid() && panel == (if led.None? then OFF else PanelOf(led.value))
    {
      var c := if led.None? then DARK else led.value;
      files.started := false;
      files.red, files.green, files.blue := c.rgb / 0x1_0000 % 0x100, c.rgb / 0x100 % 0x100, c.rgb % 0x100;
      files.redMs, files.greenMs, files.blueMs := (c.onMs, c.offMs), (c.onMs, c.offMs), (c.onMs, c.offMs);
      files.started := true;
      panel := PanelOf(c);
    }

    method SetLightLocked(state: Request, light: int) returns (err: int)
      requires Valid()
      modifies this`cur, this`panel, leds, files
      ensures Valid() && err == (if 0 <= light < 3 then 0 else -EINVAL)
      ensures Abs() == Multiplexed(old(Abs()), state, light)
    {
      if light < 0 || light >= 3 { return -EINVAL; }
      hide PanelOf;
      var onMs, offMs := 0, 0;
      if state.mode == Timed || state.mode == Hardware {
        onMs, offMs := state.onMs, state.offMs;
      }
      leds[light] := Config(state.color % 0x100_0000, onMs, offMs);
      if leds[light].rgb > 0 {
        if light >= cur {
          WriteLedsLocked(Some(leds[light]));
          cur := light;
        }
      } else if light == cur {
        cur := SwitchToLower(light);
      }
      return 0;
    }

    /** The downward search for a light to show instead. */
    method SwitchToLower(light: int) returns (i: int)
      requires Valid() && 0 <= light < 3
      modifies this`panel, files
      ensures Valid() && i == Highest(leds[..], light) && panel == Showing(leds[..], i)
    {
      hide PanelOf;
      i := light - 1;
      while i >= 0
        invariant -1 <= i < light && Highest(leds[..], light) == Highest(leds[..], i + 1)
        invariant Valid() && leds[..] == old(leds[..])
      {
        if leds[i].rgb > 0 {
          WriteLedsLocked(Some(leds[i]));
          return;
        }
        i := i - 1;
      }
      WriteLedsLocked(None);
    }

    method SetLight(light: nat, state: Request)
      requires Valid() && light < 3
      modifies this`cur, this`panel, leds, files
      ensures Valid() && Abs() == Next(old(Abs()), Ask(light, state))
    {
      hide Multiplexed, PanelOf;
      var fixed := state;
      if light == 2 {
        if fixed.mode == NoFlash {
          fixed := fixed.(color := 0);
        } else if fixed.mode == Hardware && fixed.onMs > 0 && fixed.offMs == 0 {
          fixed := fixed.(mode := NoFlash);
        }
      }
      var _ := SetLightLocked(fixed, light);
    }
  }
}
