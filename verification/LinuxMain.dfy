/** c/linux/main.cpp: drawing the screen, fitting it to the console, and the refresh loop. */
module LinuxMain {
  import opened Words
  import opened Ordering
  import opened Snapshot
  import opened Terminal
  import opened Layout
  import P = LinuxProcessor
  import D = LinuxDisk
  import N = LinuxNetwork

  /** What the sections without tables print, by the first column of each line. */
  const PLATFORM: seq<string> := ["systat", "Uptime"]
  const MEMORY: seq<string> := ["MEMORY (KB)", "Real", "Swap"]
  const VIRTUAL_MEMORY: seq<string> := ["VIRTUAL MEMORY", "", "Page", "Swap"]

  function Listed(lines: seq<string>): Section {
    Section(|lines|, lines)
  }

  /** The six sections, top to bottom. */
  function Sections(cpus: seq<string>, disks: seq<string>, nets: seq<string>): seq<Section> {
    [Section(3, PLATFORM), Listed(cpus), Section(3, MEMORY), Listed(disks), Section(4, VIRTUAL_MEMORY), Listed(nets)]
  }

  /** What is sampled for one refresh: three files, and the height the console has then. */
  datatype Tick = Tick(stat: string, diskstats: string, netDev: string, height: nat)

  predicate Readable(t: Tick) {
    P.Readable(t.stat) && D.Readable(t.diskstats) && N.Readable(t.netDev)
  }

  /** The samples of a sequence of refreshes. */
  ghost function CpuSamples(ticks: seq<Tick>): seq<View> {
    seq(|ticks|, i requires 0 <= i < |ticks| => P.Sample(ticks[i].stat))
  }

  ghost function DiskSamples(ticks: seq<Tick>): seq<View> {
    seq(|ticks|, i requires 0 <= i < |ticks| => D.Sample(ticks[i].diskstats))
  }

  ghost function NetSamples(ticks: seq<Tick>): seq<View> {
    seq(|ticks|, i requires 0 <= i < |ticks| => N.Sample(ticks[i].netDev))
  }

  /** Each section has read its own samples, in order, behind those of `cpus`, `disks` and `nets`. */
  ghost predicate HaveRead(cpus: seq<View>, disks: seq<View>, nets: seq<View>, ticks: seq<Tick>, cpus': seq<View>,
      disks': seq<View>, nets': seq<View>) {
    cpus' == cpus + CpuSamples(ticks) && disks' == disks + DiskSamples(ticks) && nets' == nets + NetSamples(ticks)
  }

  lemma SamplesAre(cpus: seq<View>, disks: seq<View>, nets: seq<View>, ticks: seq<Tick>, cpus': seq<View>,
      disks': seq<View>, nets': seq<View>)
    requires HaveRead(cpus, disks, nets, ticks, cpus', disks', nets')
    ensures cpus' == cpus + CpuSamples(ticks) && disks' == disks + DiskSamples(ticks)
    ensures nets' == nets + NetSamples(ticks)
  {
  }

  lemma NothingRead(cpus: seq<View>, disks: seq<View>, nets: seq<View>)
    ensures HaveRead(cpus, disks, nets, [], cpus, disks, nets)
  {
    assert CpuSamples([]) == [] && DiskSamples([]) == [] && NetSamples([]) == [];
  }

  lemma OneMoreRead(cpus: seq<View>, disks: seq<View>, nets: seq<View>, ticks: seq<Tick>, cpus': seq<View>,
      disks': seq<View>, nets': seq<View>, t: Tick)
    requires HaveRead(cpus, disks, nets, ticks, cpus', disks', nets')
    ensures HaveRead(cpus, disks, nets, ticks + [t], cpus' + [P.Sample(t.stat)], disks' + [D.Sample(t.diskstats)],
      nets' + [N.Sample(t.netDev)])
  {
    hide CpuSamples, DiskSamples, NetSamples, P.Sample, D.Sample, N.Sample;
    SamplesStep(ticks, t);
  }

  lemma SamplesStep(ticks: seq<Tick>, t: Tick)
    ensures CpuSamples(ticks + [t]) == CpuSamples(ticks) + [P.Sample(t.stat)]
    ensures DiskSamples(ticks + [t]) == DiskSamples(ticks) + [D.Sample(t.diskstats)]
    ensures NetSamples(ticks + [t]) == NetSamples(ticks) + [N.Sample(t.netDev)]
  {
  }

  /** What the drawing of one section adds to the screen, nothing in a test. */
  function Added(test: bool, s: Section, blank: nat, y: nat): seq<Paint> {
    if test then [] else DrawOne(s, blank, y)
  }

  /** render's `y` and the screen it draws on. */
  datatype Frame = Frame(y: nat, screen: Screen)

  function BlankLine(screen: Screen, row: nat, condensed: bool, test: bool): (r: (nat, Screen))
    ensures r.0 == Blank(condensed)
    ensures r.1.painted == screen.painted + if test || condensed then [] else [Paint(row, "")]
  {
    if condensed then (0, screen)
    else if test then (1, screen)
    else (1, screen.MoveTo(row).ClearEol())
  }

  /** render's `y += height; y += blank_line(y, test)` once a section has printed on `screen`. */
  function Close(y: nat, screen: Screen, height: nat, condensed: bool, test: bool): Frame {
    var y' := U16(y + height);
    var (rows, out) := BlankLine(screen, y', condensed, test);
    Frame(U16(y' + rows), out)
  }

  lemma CloseAdds(f: Frame, screen: Screen, s: Section, condensed: bool, test: bool)
    requires screen == f.screen.MoveTo(f.y).After(test, s.lines)
    ensures var g := Close(f.y, screen, s.height, condensed, test);
      && g.y == Below(f.y, s, Blank(condensed))
      && g.screen.painted == f.screen.painted + Added(test, s, Blank(condensed), f.y)
  {
    hide U16, Lines;
    var g := Close(f.y, screen, s.height, condensed, test);
    if test {
      assert f.screen.painted + [] == f.screen.painted;
    } else {
      var drawn := Lines(f.y, s.lines);
      assert f.screen.painted + drawn + [] == f.screen.painted + (drawn + []);
    }
  }

  function Blank(condensed: bool): nat {
    if condensed then 0 else 1
  }

  // ----- What is on the console -----

  /** What the layout depends on: the names of the CPUs and disks shown, and the state of the interfaces. */
  datatype Content = Content(cpus: set<string>, disks: set<string>, net: Snap)

  function CpuLines(cpus: set<string>, condensed: bool): seq<string> {
    var names := Ascending(cpus);
    ["CPUS"] + if condensed && names != [] then names[..1] else names
  }

  function DiskLines(disks: set<string>): seq<string> {
    ["DISK ACTIVITY"] + Ascending(disks)
  }

  function NetLines(net: Snap): seq<string> {
    N.ListedAfter(["NETWORK"], net.current, net.delta.Keys)
  }

  function LayersOf(c: Content, mode: Mode): seq<Section> {
    Sections(CpuLines(c.cpus, mode != Full), DiskLines(c.disks), NetLines(c.net))
  }

  function HeightOf(c: Content, mode: Mode): nat {
    Height(LayersOf(c, mode), Blank(mode == NoBlanks))
  }

  function ModeOf(c: Content, height: nat): Mode {
    Decide(height, HeightOf(c, Full), HeightOf(c, NoCores))
  }

  /** What one turn draws on a console of that height. */
  function DrawingOf(c: Content, height: nat): seq<Paint> {
    Draw(LayersOf(c, ModeOf(c, height)), Blank(ModeOf(c, height) == NoBlanks), 0)
  }

  function RowsOf(c: Content, height: nat): nat {
    U16(HeightOf(c, ModeOf(c, height)))
  }

  /** The console is cleared behind a turn that found another height than the turn before, or drew too many rows. */
  predicate Clears(c: Content, height: nat, last: nat) {
    height != last || RowsOf(c, height) > height
  }

  /** The drawings since the console was last cleared. */
  function Console(contents: seq<Content>, heights: seq<nat>): seq<Paint>
    requires |contents| == |heights|
  {
    if contents == [] then []
    else
      var k := |contents| - 1;
      if Clears(contents[k], heights[k], if k == 0 then 0 else heights[k - 1]) then []
      else Console(contents[..k], heights[..k]) + DrawingOf(contents[k], heights[k])
  }

  lemma ConsoleStep(contents: seq<Content>, heights: seq<nat>, c: Content, height: nat)
    requires |contents| == |heights|
    ensures var last := if heights == [] then 0 else heights[|heights| - 1];
      Console(contents + [c], heights + [height]) ==
        if Clears(c, height, last) then [] else Console(contents, heights) + DrawingOf(c, height)
  {
    hide Clears, DrawingOf;
    assert (contents + [c])[..|contents|] == contents && (heights + [height])[..|heights|] == heights;
  }

  /** The names shown stay the same; the interfaces have a state after every update. */
  ghost function Contents(cpus: set<string>, disks: set<string>, trail: seq<Snap>): (cs: seq<Content>)
    ensures |cs| == |trail|
  {
    seq(|trail|, i requires 0 <= i < |trail| => Content(cpus, disks, trail[i]))
  }

  lemma ContentsStep(cpus: set<string>, disks: set<string>, trail: seq<Snap>, net: Snap)
    ensures Contents(cpus, disks, trail + [net]) == Contents(cpus, disks, trail) + [Content(cpus, disks, net)]
  {
  }

  function Heights(ticks: seq<Tick>): (hs: seq<nat>)
    ensures |hs| == |ticks|
  {
    seq(|ticks|, i requires 0 <= i < |ticks| => ticks[i].height)
  }

  lemma HeightsStep(ticks: seq<Tick>, t: Tick)
    ensures Heights(ticks + [t]) == Heights(ticks) + [t.height]
    ensures |Heights(ticks)| == |ticks|
  {
  }

  /** The height that the main loop remembers: that of the turn before. */
  function LastHeight(ticks: seq<Tick>): nat {
    if ticks == [] then 0 else ticks[|ticks| - 1].height
  }

  /** One turn of the loop, on the console. */
  lemma TurnOnConsole(cpus: set<string>, disks: set<string>, trail: seq<Snap>, ticks: seq<Tick>, net: Snap, t: Tick,
      before: seq<Paint>, after: seq<Paint>)
    requires |trail| == |ticks| && before == Console(Contents(cpus, disks, trail), Heights(ticks))
    requires var c := Content(cpus, disks, net);
      after == if t.height != LastHeight(ticks) || RowsOf(c, t.height) > t.height then []
        else before + DrawingOf(c, t.height)
    ensures after == Console(Contents(cpus, disks, trail + [net]), Heights(ticks + [t]))
  {
    hide RowsOf, DrawingOf, Console;
    ContentsStep(cpus, disks, trail, net);
    HeightsStep(ticks, t);
    ConsoleStep(Contents(cpus, disks, trail), Heights(ticks), Content(cpus, disks, net), t.height);
  }

  predicate EndsIn(painted: seq<Paint>, drawing: seq<Paint>) {
    |drawing| <= |painted| && painted[|painted| - |drawing|..] == drawing
  }

  /** The last drawing is still there unless the console was cleared behind it. */
  predicate LastDrawing(c: Content, height: nat, before: nat, painted: seq<Paint>) {
    if Clears(c, height, before) then painted == [] else EndsIn(painted, DrawingOf(c, height))
  }

  /** Where the loop stands after the turns `ticks`: what has been read of the interfaces, and the console. */
  ghost predicate OnConsole(start: Content, base: seq<Snap>, trail: seq<Snap>, ticks: seq<Tick>, now: Content,
      painted: seq<Paint>) {
    && base <= trail && |trail| == |base| + |ticks| && now.cpus == start.cpus && now.disks == start.disks
    && painted == Console(Contents(start.cpus, start.disks, trail[|base|..]), Heights(ticks))
    && (ticks != [] ==> LastDrawing(now, LastHeight(ticks), LastHeight(ticks[..|ticks| - 1]), painted))
  }

  lemma NoTurnYet()
    ensures LastHeight([]) == 0
  {
  }

  lemma EmptyConsole(start: Content, base: seq<Snap>)
    ensures OnConsole(start, base, base, [], start, [])
  {
  }

  lemma TurnDone(start: Content, base: seq<Snap>, trail: seq<Snap>, ticks: seq<Tick>, was: Content, c: Content, t: Tick,
      before: seq<Paint>, after: seq<Paint>)
    requires OnConsole(start, base, trail, ticks, was, before) && c.cpus == was.cpus && c.disks == was.disks
    requires after == if t.height != LastHeight(ticks) || RowsOf(c, t.height) > t.height then []
      else before + DrawingOf(c, t.height)
    ensures OnConsole(start, base, trail + [c.net], ticks + [t], c, after)
    ensures LastHeight(ticks + [t]) == t.height
  {
    hide RowsOf, DrawingOf, Console, Contents, Heights;
    assert (trail + [c.net])[|base|..] == trail[|base|..] + [c.net];
    assert (ticks + [t])[..|ticks|] == ticks;
    TurnOnConsole(start.cpus, start.disks, trail[|base|..], ticks, c.net, t, before, after);
  }

  class Systat {
    const processor: P.Processor
    const disk: D.Disk
    const network: N.Network
    var condensed: bool

    /** The program's global objects, as their own constructors left them. */
    constructor (processor: P.Processor, disk: D.Disk, network: N.Network)
      ensures this.processor == processor && this.disk == disk && this.network == network
      ensures !condensed
    {
      this.processor, this.disk, this.network := processor, disk, network;
      condensed := false;
    }

    ghost function Parts(): set<object> {
      {processor, disk, network} + processor.Parts() + disk.Parts() + network.Parts()
    }

    ghost function Repr(): set<object>
      reads Parts()
    {
      {processor, disk, network} + processor.Repr() + disk.Repr() + network.Repr()
    }

    /** The sections are intact and share nothing with each other. */
    ghost predicate Valid()
      reads this, Parts(), Repr()
    {
      && processor.Valid() && disk.Valid() && network.Valid()
      && ({processor} + processor.Repr()) !! ({disk} + disk.Repr())
      && ({processor} + processor.Repr()) !! ({network} + network.Repr())
      && ({disk} + disk.Repr()) !! ({network} + network.Repr())
      && this !in Repr()
    }

    ghost function Layers(): seq<Section>
      reads Parts()
    {
      Sections(processor.Listing(), disk.Listing(), network.Listing())
    }

    /** render: the same height in a test and in earnest; only in earnest is anything drawn. */
    method Render(screen: Screen, test: bool) returns (y: nat, out: Screen)
      requires Valid()
      ensures Valid() && Layouts() == old(Layouts())
      ensures y == End(old(Layers()), Blank(condensed), 0)
      ensures out.painted == screen.painted + if test then [] else Draw(old(Layers()), Blank(condensed), 0)
    {
      hide Valid, Layouts, Draw, End, PrintFixed, PrintListing;
      ghost var cpus, disks, nets := processor.Listing(), disk.Listing(), network.Listing();
      var f := PrintFixed(Frame(0, screen), condensed, test, 3, PLATFORM);
      f := Processors(f, test);
      f := PrintFixed(f, condensed, test, 3, MEMORY);
      f := Disks(f, test);
      f := PrintFixed(f, condensed, test, 4, VIRTUAL_MEMORY);
      f := Networks(f, test);
      SixSections(screen, test, condensed, cpus, disks, nets);
      return f.y, f.screen;
    }

    ghost function Now(): Content
      reads Parts()
    {
      Content(processor.delta.view.Keys, disk.delta.view.Keys, network.Abs())
    }

    /** The layouts follow from the names shown and the state of the interfaces. */
    lemma NowIs(mode: Mode)
      ensures LayersIn(mode) == LayersOf(Now(), mode) && HeightIn(mode) == HeightOf(Now(), mode)
    {
      hide Ascending, Sections, Height, N.ListedAfter;
    }

    /** The sections and the blank rows of a layout. */
    ghost function LayersIn(mode: Mode): seq<Section>
      reads Parts()
    {
      Sections(processor.ListingIf(mode != Full), disk.Listing(), network.Listing())
    }

    ghost function HeightIn(mode: Mode): nat
      reads Parts()
    {
      Height(LayersIn(mode), Blank(mode == NoBlanks))
    }

    ghost function Layouts(): (seq<Section>, seq<Section>, seq<Section>)
      reads Parts()
    {
      (LayersIn(Full), LayersIn(NoCores), LayersIn(NoBlanks))
    }

    /** The two flags are those of the given layout. */
    ghost predicate Is(mode: Mode)
      reads this, processor
    {
      condensed == (mode == NoBlanks) && processor.condensed == (mode != Full)
    }

    method UpdateProcessor(text: string)
      requires Valid() && P.Readable(text)
      modifies {processor} + processor.Repr()
      ensures Valid() && fresh(Repr() - old(Repr())) && condensed == old(condensed)
      ensures processor.samples == old(processor.samples) + [P.Sample(text)]
      ensures disk.samples == old(disk.samples) && disk.Repr() == old(disk.Repr())
      ensures network.samples == old(network.samples) && network.Repr() == old(network.Repr())
      ensures Now() == old(Now()) && network.trail == old(network.trail)
    {
      hide P.Processor.Valid, D.Disk.Valid, N.Network.Valid;
      processor.Update(text);
    }

    method UpdateDisk(text: string)
      requires Valid() && D.Readable(text)
      modifies {disk} + disk.Repr()
      ensures Valid() && fresh(Repr() - old(Repr())) && condensed == old(condensed)
      ensures disk.samples == old(disk.samples) + [D.Sample(text)]
      ensures processor.samples == old(processor.samples) && processor.Repr() == old(processor.Repr())
      ensures network.samples == old(network.samples) && network.Repr() == old(network.Repr())
      ensures Now() == old(Now()) && network.trail == old(network.trail)
    {
      hide P.Processor.Valid, D.Disk.Valid, N.Network.Valid;
      disk.Update(text);
    }

    method UpdateNetwork(text: string)
      requires Valid() && N.Readable(text)
      modifies {network} + network.Repr()
      ensures Valid() && fresh(Repr() - old(Repr())) && condensed == old(condensed)
      ensures network.samples == old(network.samples) + [N.Sample(text)]
      ensures processor.samples == old(processor.samples) && processor.Repr() == old(processor.Repr())
      ensures disk.samples == old(disk.samples) && disk.Repr() == old(disk.Repr())
      ensures Now() == old(Now()).(net := Now().net) && network.trail == old(network.trail) + [Now().net]
    {
      hide P.Processor.Valid, D.Disk.Valid, N.Network.Valid;
      network.Update(text);
    }

    /** One turn of the main loop. */
    method Refresh(t: Tick, screen: Screen) returns (y: nat, out: Screen)
      requires Valid() && Readable(t)
      modifies `condensed, Repr()
      ensures Valid() && fresh(Repr() - old(Repr()))
      ensures processor.samples == old(processor.samples) + [P.Sample(t.stat)]
      ensures disk.samples == old(disk.samples) + [D.Sample(t.diskstats)]
      ensures network.samples == old(network.samples) + [N.Sample(t.netDev)]
      ensures var mode := Decide(t.height, HeightIn(Full), HeightIn(NoCores));
        && Is(mode) && y == U16(HeightIn(mode))
        && out.painted == screen.painted + Draw(LayersIn(mode), Blank(mode == NoBlanks), 0)
      ensures Now() == old(Now()).(net := Now().net) && network.trail == old(network.trail) + [Now().net]
      ensures y == RowsOf(Now(), t.height) && out.painted == screen.painted + DrawingOf(Now(), t.height)
    {
      hide Valid, Layouts, P.Sample, D.Sample, N.Sample, HeightIn, LayersIn, Is, Decide, Draw, U16, HeightOf, LayersOf;
      UpdateAll(t);
      y, out := FitAndDraw(screen, t.height);
      NowIs(Full);
      NowIs(NoCores);
      NowIs(NoBlanks);
    }

    /** The updates of the sections with tables, in the order of the main loop. */
    method UpdateAll(t: Tick)
      requires Valid() && Readable(t)
      modifies Repr()
      ensures Valid() && fresh(Repr() - old(Repr()))
      ensures processor.samples == old(processor.samples) + [P.Sample(t.stat)]
      ensures disk.samples == old(disk.samples) + [D.Sample(t.diskstats)]
      ensures network.samples == old(network.samples) + [N.Sample(t.netDev)]
      ensures Now() == old(Now()).(net := Now().net) && network.trail == old(network.trail) + [Now().net]
    {
      hide Valid, P.Readable, D.Readable, N.Readable, P.Sample, D.Sample, N.Sample;
      UpdateProcessor(t.stat);
      UpdateDisk(t.diskstats);
      UpdateNetwork(t.netDev);
    }

    method FitAndDraw(screen: Screen, height: nat) returns (y: nat, out: Screen)
      requires Valid()
      modifies `condensed, processor`condensed
      ensures Valid() && Repr() == old(Repr()) && Now() == old(Now())
      ensures var mode := Decide(height, HeightIn(Full), HeightIn(NoCores));
        && Is(mode) && y == U16(HeightIn(mode))
        && out.painted == screen.painted + Draw(LayersIn(mode), Blank(mode == NoBlanks), 0)
    {
      hide Valid, Draw, U16, End, Height;
      out := Fit(screen, height);
      ghost var mode := Decide(height, HeightIn(Full), HeightIn(NoCores));
      y, out := RenderAs(out, false, mode);
    }

    lemma LayersAre(mode: Mode)
      requires Is(mode)
      ensures Layers() == LayersIn(mode) && Blank(condensed) == Blank(mode == NoBlanks)
    {
    }

    /** render, in terms of the layout the flags stand for. */
    method RenderAs(screen: Screen, test: bool, ghost mode: Mode) returns (y: nat, out: Screen)
      requires Valid() && Is(mode)
      ensures Valid() && Layouts() == old(Layouts())
      ensures y == U16(HeightIn(mode))
      ensures out.painted == screen.painted + if test then [] else Draw(LayersIn(mode), Blank(mode == NoBlanks), 0)
    {
      hide Valid, Draw, U16, Height, End, Is, Layers, LayersIn, Blank;
      ghost var secs, blank := LayersIn(mode), Blank(condensed);
      LayersAre(mode);
      EndIsHeight(secs, blank, 0);
      y, out := Render(screen, test);
    }

    /** The body of the main loop. */
    method OneTurn(t: Tick, screen: Screen, lastHeight: nat) returns (out: Screen, height: nat)
      requires Valid() && Readable(t)
      modifies `condensed, Repr()
      ensures Valid() && fresh(Repr() - old(Repr())) && height == t.height
      ensures processor.samples == old(processor.samples) + [P.Sample(t.stat)]
      ensures disk.samples == old(disk.samples) + [D.Sample(t.diskstats)]
      ensures network.samples == old(network.samples) + [N.Sample(t.netDev)]
      ensures Now() == old(Now()).(net := Now().net) && network.trail == old(network.trail) + [Now().net]
      ensures out.painted == if t.height != lastHeight || RowsOf(Now(), t.height) > t.height then []
        else screen.painted + DrawingOf(Now(), t.height)
    {
      hide Valid, Now, RowsOf, DrawingOf, Readable, HeightIn, LayersIn, Is, Decide, Draw;
      var y;
      height := lastHeight;
      y, out := Refresh(t, screen);
      if t.height != height || y > t.height {
        out := Screen(0, []);
        height := t.height;
      }
    }

    /** The main loop, for as many turns as there are ticks; a resized or overfull console is cleared. */
    method Loop(ticks: seq<Tick>) returns (screen: Screen)
      requires Valid() && forall t | t in ticks :: Readable(t)
      modifies `condensed, Repr()
      ensures Valid()
      ensures processor.samples == old(processor.samples) + CpuSamples(ticks)
      ensures disk.samples == old(disk.samples) + DiskSamples(ticks)
      ensures network.samples == old(network.samples) + NetSamples(ticks)
      ensures old(network.trail) <= network.trail && |network.trail| == |old(network.trail)| + |ticks|
      ensures screen.painted == Console(
        Contents(old(Now().cpus), old(Now().disks), network.trail[|old(network.trail)|..]), Heights(ticks))
      ensures ticks != [] ==>
        var h, before := ticks[|ticks| - 1].height, LastHeight(ticks[..|ticks| - 1]);
        var mode := Decide(h, HeightIn(Full), HeightIn(NoCores));
        if h == before && U16(HeightIn(mode)) <= h
        then EndsIn(screen.painted, Draw(LayersIn(mode), Blank(mode == NoBlanks), 0))
        else screen.painted == []
    {
      hide Valid, Decide, Draw, HeightIn, LayersIn, Is, Readable, CpuSamples, DiskSamples, NetSamples, Console,
        Contents, RowsOf, DrawingOf, Now, Heights, EndsIn, OnConsole, LastHeight, P.Sample, D.Sample, N.Sample,
        HaveRead;
      ghost var cpus, disks, nets := processor.samples, disk.samples, network.samples;
      NothingRead(cpus, disks, nets);
      NoTurnYet();
      ghost var start, base := Now(), network.trail;
      var lastHeight := 0;
      screen := Screen(0, []);
      EmptyConsole(start, base);
      for i := 0 to |ticks|
        invariant Valid() && fresh(Repr() - old(Repr()))
        invariant HaveRead(cpus, disks, nets, ticks[..i], processor.samples, disk.samples, network.samples)
        invariant lastHeight == LastHeight(ticks[..i])
        invariant OnConsole(start, base, network.trail, ticks[..i], Now(), screen.painted)
      {
        assert ticks[..i + 1] == ticks[..i] + [ticks[i]];
        OneMoreRead(cpus, disks, nets, ticks[..i], processor.samples, disk.samples, network.samples, ticks[i]);
        ghost var trail, was, before := network.trail, Now(), screen.painted;
        screen, lastHeight := OneTurn(ticks[i], screen, lastHeight);
        TurnDone(start, base, trail, ticks[..i], was, Now(), ticks[i], before, screen.painted);
      }
      assert ticks[..|ticks|] == ticks;
      SamplesAre(cpus, disks, nets, ticks, processor.samples, disk.samples, network.samples);
      LastTurn(start, base, network.trail, ticks, screen.painted);
    }

    /** What the loop leaves on the console, in terms of the layouts. */
    lemma LastTurn(start: Content, base: seq<Snap>, trail: seq<Snap>, ticks: seq<Tick>, painted: seq<Paint>)
      requires OnConsole(start, base, trail, ticks, Now(), painted)
      ensures base <= trail && |trail| == |base| + |ticks|
      ensures painted == Console(Contents(start.cpus, start.disks, trail[|base|..]), Heights(ticks))
      ensures ticks != [] ==>
        var h, before := ticks[|ticks| - 1].height, LastHeight(ticks[..|ticks| - 1]);
        var mode := Decide(h, HeightIn(Full), HeightIn(NoCores));
        if h == before && U16(HeightIn(mode)) <= h
        then EndsIn(painted, Draw(LayersIn(mode), Blank(mode == NoBlanks), 0)) else painted == []
    {
      hide Decide, Draw, HeightIn, LayersIn, U16, HeightOf, LayersOf, EndsIn, Now, Console, Contents, Heights;
      NowIs(Full);
      NowIs(NoCores);
      NowIs(NoBlanks);
    }

    /** The two static flags. */
    method Condense(mode: Mode)
      requires Valid()
      modifies `condensed, processor`condensed
      ensures Valid() && Is(mode) && Layouts() == old(Layouts())
    {
      hide P.Processor.Valid, D.Disk.Valid, N.Network.Valid;
      condensed := mode == NoBlanks;
      processor.Condense(mode != Full);
    }

    /** fit: tries the three layouts in turn, by test runs of render. */
    method Fit(screen: Screen, height: nat) returns (out: Screen)
      requires Valid()
      modifies `condensed, processor`condensed
      ensures Valid() && Layouts() == old(Layouts())
      ensures Is(Decide(height, HeightIn(Full), HeightIn(NoCores)))
      ensures out.painted == screen.painted
    {
      hide Valid, Layouts, Draw;
      assert screen.painted + [] == screen.painted;
      var h;
      Condense(Full);
      h, out := RenderAs(screen, true, Full);
      if h <= height {
        return;
      }
      Condense(NoCores);
      h, out := RenderAs(out, true, NoCores);
      if h <= height {
        return;
      }
      Condense(NoBlanks);
    }

    method Processors(f: Frame, test: bool) returns (g: Frame)
      requires Valid()
      ensures Valid() && Layers() == old(Layers()) && Layouts() == old(Layouts())
      ensures g == PrintListing(f, condensed, test, old(processor.Listing()))
    {
      hide P.Processor.Valid, D.Disk.Valid, N.Network.Valid, Close, U16, Screen.After, Sections,
        P.Processor.Listing, P.Processor.ListingIf, D.Disk.Listing, N.Network.Listing;
      var rows, out := processor.Print(f.screen.MoveTo(f.y), test);
      g := Close(f.y, out, rows, condensed, test);
    }

    method Disks(f: Frame, test: bool) returns (g: Frame)
      requires Valid()
      ensures Valid() && Layers() == old(Layers()) && Layouts() == old(Layouts())
      ensures g == PrintListing(f, condensed, test, old(disk.Listing()))
    {
      hide P.Processor.Valid, D.Disk.Valid, N.Network.Valid, Close, U16, Screen.After, Sections,
        P.Processor.Listing, P.Processor.ListingIf, D.Disk.Listing, N.Network.Listing;
      var rows, out := disk.Print(f.screen.MoveTo(f.y), test);
      g := Close(f.y, out, rows, condensed, test);
    }

    method Networks(f: Frame, test: bool) returns (g: Frame)
      requires Valid()
      ensures Valid() && Layers() == old(Layers()) && Layouts() == old(Layouts())
      ensures g == PrintListing(f, condensed, test, old(network.Listing()))
    {
      hide P.Processor.Valid, D.Disk.Valid, N.Network.Valid, Close, U16, Screen.After, Sections,
        P.Processor.Listing, P.Processor.ListingIf, D.Disk.Listing, N.Network.Listing;
      var rows, out := network.Print(f.screen.MoveTo(f.y), test);
      g := Close(f.y, out, rows, condensed, test);
    }
  }

  /** A section that prints fixed lines and returns a fixed height. */
  function PrintFixed(f: Frame, condensed: bool, test: bool, height: nat, lines: seq<string>): Frame {
    Close(f.y, f.screen.MoveTo(f.y).After(test, lines), height, condensed, test)
  }

  /** A section whose print() emits and counts the lines of `listing`. */
  function PrintListing(f: Frame, condensed: bool, test: bool, listing: seq<string>): Frame {
    Close(f.y, f.screen.MoveTo(f.y).After(test, listing), U16(|listing|), condensed, test)
  }

  /** The screen after `secs` were printed one after the other. */
  function PrintAll(f: Frame, condensed: bool, test: bool, secs: seq<Section>): Frame
    decreases |secs|
  {
    if secs == [] then f
    else PrintAll(PrintFixed(f, condensed, test, secs[0].height, secs[0].lines), condensed, test, secs[1..])
  }

  lemma {:induction false} PrintAllDraws(f: Frame, condensed: bool, test: bool, secs: seq<Section>)
    ensures var g := PrintAll(f, condensed, test, secs);
      && g.y == End(secs, Blank(condensed), f.y)
      && g.screen.painted == f.screen.painted + if test then [] else Draw(secs, Blank(condensed), f.y)
    decreases |secs|
  {
    hide Close, DrawOne, Below, Blank, Screen.After;
    if secs == [] {
      assert f.screen.painted + [] == f.screen.painted;
    } else {
      var s := secs[0];
      var g := PrintFixed(f, condensed, test, s.height, s.lines);
      CloseAdds(f, f.screen.MoveTo(f.y).After(test, s.lines), s, condensed, test);
      PrintAllDraws(g, condensed, test, secs[1..]);
      if test {
        assert f.screen.painted + [] == f.screen.painted;
      } else {
        var first, rest := DrawOne(s, Blank(condensed), f.y), Draw(secs[1..], Blank(condensed), g.y);
        assert f.screen.painted + first + rest == f.screen.painted + (first + rest);
      }
    }
  }

  /** Returning the count as a uint16_t makes no difference to where the next section starts. */
  lemma ListingIsFixed(f: Frame, condensed: bool, test: bool, listing: seq<string>)
    ensures PrintListing(f, condensed, test, listing) == PrintFixed(f, condensed, test, |listing|, listing)
  {
    U16Add(|listing|, f.y);
  }

  /** What render has printed after its six sections. */
  lemma SixSections(screen: Screen, test: bool, condensed: bool, cpus: seq<string>, disks: seq<string>,
      nets: seq<string>)
    ensures
      var f2 := PrintFixed(Frame(0, screen), condensed, test, 3, PLATFORM);
      var f3 := PrintListing(f2, condensed, test, cpus);
      var f4 := PrintFixed(f3, condensed, test, 3, MEMORY);
      var f5 := PrintListing(f4, condensed, test, disks);
      var f6 := PrintFixed(f5, condensed, test, 4, VIRTUAL_MEMORY);
      var f7 := PrintListing(f6, condensed, test, nets);
      var secs := Sections(cpus, disks, nets);
      && f7.y == End(secs, Blank(condensed), 0)
      && f7.screen.painted == screen.painted + if test then [] else Draw(secs, Blank(condensed), 0)
  {
    hide Close, U16, End, Draw, PrintAll, PrintFixed, PrintListing;
    PrintAllDraws(Frame(0, screen), condensed, test, Sections(cpus, disks, nets));
    SectionList(cpus, disks, nets);
    OneByOne(condensed, test);
  }

  /** The six sections, taken off the front one by one. */
  lemma SectionList(cpus: seq<string>, disks: seq<string>, nets: seq<string>)
    ensures Sections(cpus, disks, nets) == [Section(3, PLATFORM)] + ([Listed(cpus)] + ([Section(3, MEMORY)]
      + ([Listed(disks)] + ([Section(4, VIRTUAL_MEMORY)] + ([Listed(nets)] + [])))))
  {
  }

  lemma OneByOne(condensed: bool, test: bool)
    ensures forall f: Frame :: PrintAll(f, condensed, test, []) == f
    ensures forall f: Frame, height: nat, lines, rest: seq<Section> ::
      PrintAll(f, condensed, test, [Section(height, lines)] + rest)
        == PrintAll(PrintFixed(f, condensed, test, height, lines), condensed, test, rest)
    ensures forall f: Frame, listing ::
      PrintFixed(f, condensed, test, |listing|, listing) == PrintListing(f, condensed, test, listing)
  {
    hide PrintListing, PrintFixed;
    forall f: Frame, height: nat, lines, rest: seq<Section>
      ensures PrintAll(f, condensed, test, [Section(height, lines)] + rest)
        == PrintAll(PrintFixed(f, condensed, test, height, lines), condensed, test, rest)
    {
      assert ([Section(height, lines)] + rest)[1..] == rest;
    }
    forall f: Frame, listing
      ensures PrintFixed(f, condensed, test, |listing|, listing) == PrintListing(f, condensed, test, listing)
    {
      ListingIsFixed(f, condensed, test, listing);
    }
  }

  // ----- What the layouts look like -----

  lemma SectionHeights(cpus: seq<string>, disks: seq<string>, nets: seq<string>, blank: nat)
    ensures Height(Sections(cpus, disks, nets), blank) == 10 + |cpus| + |disks| + |nets| + 6 * blank
  {
    SectionList(cpus, disks, nets);
    forall s: Section, rest: seq<Section>
      ensures Height([s] + rest, blank) == s.height + blank + Height(rest, blank)
    {
      assert ([s] + rest)[1..] == rest;
    }
  }

  lemma DrawFirst(s: Section, rest: seq<Section>, blank: nat, y: nat)
    requires blank <= 1 && y + s.height + blank < SHORT
    ensures Draw([s] + rest, blank, y) ==
      Lines(y, s.lines) + (if blank == 0 then [] else [Paint(y + s.height, "")])
        + Draw(rest, blank, y + s.height + blank)
  {
    hide U16, Lines;
    assert ([s] + rest)[1..] == rest;
  }

  /**
   * Which rows the sections are drawn on, top to bottom, when there is a blank row behind each, or none: the
   * platform, the CPUs, the memory, the disks, the virtual memory, and the interfaces.
   */
  lemma WhereSectionsAre(cpus: seq<string>, disks: seq<string>, nets: seq<string>, blank: nat)
    requires blank <= 1 && 10 + |cpus| + |disks| + |nets| + 6 * blank < SHORT
    ensures var b, c, d, n := blank, |cpus|, |disks|, |nets|;
      var gap := (row: nat) => if blank == 0 then [] else [Paint(row, "")];
      Draw(Sections(cpus, disks, nets), blank, 0) ==
        Lines(0, ["systat", "Uptime"]) + gap(3) + (Lines(3 + b, cpus) + gap(3 + c + b)
          + (Lines(3 + c + 2 * b, ["MEMORY (KB)", "Real", "Swap"]) + gap(6 + c + 2 * b)
          + (Lines(6 + c + 3 * b, disks) + gap(6 + c + d + 3 * b)
          + (Lines(6 + c + d + 4 * b, ["VIRTUAL MEMORY", "", "Page", "Swap"]) + gap(10 + c + d + 4 * b)
          + (Lines(10 + c + d + 5 * b, nets) + gap(10 + c + d + n + 5 * b) + [])))))
  {
    hide Draw, Lines;
    var b, c, d, n := blank, |cpus|, |disks|, |nets|;
    SectionList(cpus, disks, nets);
    DrawNone(blank, 10 + c + d + n + 6 * b);
    DrawFirst(Listed(nets), [], blank, 10 + c + d + 5 * b);
    DrawFirst(Section(4, VIRTUAL_MEMORY), [Listed(nets)] + [], blank, 6 + c + d + 4 * b);
    DrawFirst(Listed(disks), [Section(4, VIRTUAL_MEMORY)] + ([Listed(nets)] + []), blank, 6 + c + 3 * b);
    DrawFirst(Section(3, MEMORY), [Listed(disks)] + ([Section(4, VIRTUAL_MEMORY)] + ([Listed(nets)] + [])), blank,
      3 + c + 2 * b);
    DrawFirst(Listed(cpus), [Section(3, MEMORY)] + ([Listed(disks)] + ([Section(4, VIRTUAL_MEMORY)]
      + ([Listed(nets)] + []))), blank, 3 + b);
    DrawFirst(Section(3, PLATFORM), [Listed(cpus)] + ([Section(3, MEMORY)] + ([Listed(disks)]
      + ([Section(4, VIRTUAL_MEMORY)] + ([Listed(nets)] + [])))), blank, 0);
  }

  lemma DrawNone(blank: nat, y: nat)
    ensures Draw([], blank, y) == []
  {
  }

  /** In every layout the six sections and the blank rows lie on rows of their own. */
  lemma ScreenDisjoint(cpus: seq<string>, disks: seq<string>, nets: seq<string>, blank: nat)
    requires blank <= 1 && Height(Sections(cpus, disks, nets), blank) < SHORT
    ensures Ordered(Draw(Sections(cpus, disks, nets), blank, 0), 0, Height(Sections(cpus, disks, nets), blank))
  {
    SectionsDisjoint(Sections(cpus, disks, nets), blank, 0);
  }

  /** Hiding the cores saves all rows but one of the CPU section, hiding the blank rows six more. */
  lemma HeightsFall(s: Systat)
    ensures var cpus := s.processor.delta.view.Keys;
      && s.HeightIn(Full) - s.HeightIn(NoCores) == (if cpus == {} then 0 else |cpus| - 1)
      && s.HeightIn(NoCores) - s.HeightIn(NoBlanks) == 6
  {
    var p, d, n := s.processor, s.disk.Listing(), s.network.Listing();
    SectionHeights(p.ListingIf(false), d, n, 1);
    SectionHeights(p.ListingIf(true), d, n, 1);
    SectionHeights(p.ListingIf(true), d, n, 0);
  }

  /**
   * What fit leaves is the least condensed layout that fits, or the fully condensed one if none does,
   * exactly when no height that it looks at has wrapped around 2^16 to one that seems to fit.
   */
  lemma FitIsBest(s: Systat, height: nat)
    requires height < SHORT
    ensures var full, noCores := s.HeightIn(Full), s.HeightIn(NoCores);
      (Decide(height, full, noCores) == Best(height, full, noCores))
      == (full < SHORT || (U16(full) > height && (noCores < SHORT || U16(noCores) > height)))
  {
    HeightsFall(s);
    DecideIsBest(height, s.HeightIn(Full), s.HeightIn(NoCores));
  }

  /** A layout of 65541 rows counts as 5 rows, so fit takes it for one that fits 24 rows. */
  lemma FitCanWrap(cpus: seq<string>, disks: seq<string>, nets: seq<string>)
    requires |cpus| == 65521 && |disks| == 2 && |nets| == 2
    ensures var full, noCores := Height(Sections(cpus, disks, nets), 1), Height(Sections(cpus[..2], disks, nets), 1);
      full > 24 && Decide(24, full, noCores) == Full && Best(24, full, noCores) == NoCores
  {
    SectionHeights(cpus, disks, nets, 1);
    SectionHeights(cpus[..2], disks, nets, 1);
  }
}
