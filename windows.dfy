/// Sliding windows over one tail of a read (Topsicle/allsteps.py, seq_cut_windows).
/// Window starts run 0, step, 2*step, ... below |s| - ws + 1, and each window
/// ends at start + ws - 1, so a window of size ws holds ws - 1 characters.
module Windows {
  import opened Text

  /** One window: its start index in the tail and its text. */
  datatype Window = Window(start: int, text: String)

  /** The exclusive bound of range(0, len(s) - window_size + 1, step). */
  function Stop(s: String, ws: int): int {
    |s| - ws + 1
  }

  /** The end index of the window starting at i, with the source's clamp to len(s). */
  function WindowEnd(s: String, ws: int, i: int): int {
    if i + ws - 1 > |s| then |s| else i + ws - 1
  }

  /** The windows whose start is i, i + step, i + 2*step, ... below Stop(s, ws). */
  function WindowsFrom(s: String, ws: int, step: int, i: int): seq<Window>
    requires step > 0
    decreases Stop(s, ws) - i
  {
    if i >= Stop(s, ws) then []
    else [Window(i, PySlice(s, i, WindowEnd(s, ws, i)))] + WindowsFrom(s, ws, step, i + step)
  }

  /** seq_cut_windows(s, ws, step) */
  function CutWindows(s: String, ws: int, step: int): seq<Window>
    requires step > 0
  {
    WindowsFrom(s, ws, step, 0)
  }

  /**
   * The windows from start i: their count n is the least with i + n*step
   * reaching Stop, the j-th starts at i + j*step, and its text is
   * s[start:start + ws - 1].
   */
  lemma {:induction false} WindowsFromSpec(s: String, ws: int, step: int, i: int)
    requires step > 0
    ensures var r := WindowsFrom(s, ws, step, i);
      && (|r| == 0 <==> i >= Stop(s, ws))
      && (|r| > 0 ==> i + (|r| - 1) * step < Stop(s, ws) <= i + |r| * step)
      && (forall j :: 0 <= j < |r| ==> r[j].start == i + j * step)
      && (forall j :: 0 <= j < |r| ==> r[j].text == PySlice(s, r[j].start, r[j].start + ws - 1))
    decreases Stop(s, ws) - i
  {
    var r := WindowsFrom(s, ws, step, i);
    if i < Stop(s, ws) {
      var rest := WindowsFrom(s, ws, step, i + step);
      WindowsFromSpec(s, ws, step, i + step);
      assert r == [r[0]] + rest;
      if |rest| > 0 {
        assert i + (|r| - 1) * step == i + step + (|rest| - 1) * step;
        assert i + |r| * step == i + step + |rest| * step;
      }
      forall j | 1 <= j < |r| ensures r[j].start == i + j * step {
        assert r[j] == rest[j - 1];
        assert rest[j - 1].start == i + step + (j - 1) * step;
      }
    }
  }

  /**
   * seq_cut_windows yields no window when |s| < ws, and otherwise n windows
   * with (n - 1)*step <= |s| - ws < n*step, that is (|s| - ws) / step + 1 of
   * them; the j-th starts at j*step, and when ws >= 1 it is the
   * slice s[j*step .. j*step + ws - 1], one character short of ws.
   */
  lemma CutWindowsSpec(s: String, ws: int, step: int)
    requires step > 0
    ensures var r := CutWindows(s, ws, step);
      && (|r| == 0 <==> |s| < ws)
      && (|r| > 0 ==> (|r| - 1) * step <= |s| - ws < |r| * step)
      && (forall j :: 0 <= j < |r| ==> r[j].start == j * step)
      && (forall j :: 0 <= j < |r| ==> r[j].text == PySlice(s, j * step, j * step + ws - 1))
      && (ws >= 1 ==> forall j :: 0 <= j < |r| ==>
            0 <= r[j].start && r[j].start + ws - 1 <= |s| - 1
            && r[j].text == s[r[j].start..r[j].start + ws - 1] && |r[j].text| == ws - 1)
  {
    WindowsFromSpec(s, ws, step, 0);
    var r := CutWindows(s, ws, step);
    if ws >= 1 {
      forall j | 0 <= j < |r|
        ensures 0 <= r[j].start && r[j].start + ws - 1 <= |s| - 1
      {
        assert r[j] in WindowsFrom(s, ws, step, 0);
        StartBelowStop(s, ws, step, 0, r[j]);
      }
    }
  }

  /** Every window of WindowsFrom(.., i) starts in [i, Stop). */
  lemma {:induction false} StartBelowStop(s: String, ws: int, step: int, i: int, w: Window)
    requires step > 0 && w in WindowsFrom(s, ws, step, i)
    ensures i <= w.start < Stop(s, ws)
    decreases Stop(s, ws) - i
  {
    if w != WindowsFrom(s, ws, step, i)[0] {
      assert w in WindowsFrom(s, ws, step, i + step);
      StartBelowStop(s, ws, step, i + step, w);
    }
  }

  /** The starts are strictly increasing, one step apart. */
  lemma StartsIncrease(s: String, ws: int, step: int)
    requires step > 0
    ensures var r := CutWindows(s, ws, step);
      forall j :: 0 < j < |r| ==> r[j].start == r[j - 1].start + step
  {
    WindowsFromSpec(s, ws, step, 0);
    var r := CutWindows(s, ws, step);
    forall j | 0 < j < |r| ensures r[j].start == r[j - 1].start + step {
      assert r[j].start == j * step && r[j - 1].start == (j - 1) * step;
    }
  }

  /** The window loop of seq_cut_windows. */
  method SeqCutWindows(s: String, windowSize: int, step: int) returns (windows: seq<Window>)
    requires step > 0
    ensures windows == CutWindows(s, windowSize, step)
  {
    windows := [];
    var i := 0;
    while i < |s| - windowSize + 1
      invariant windows + WindowsFrom(s, windowSize, step, i) == CutWindows(s, windowSize, step)
      decreases |s| - windowSize + 1 - i
    {
      var start := i;
      var end := i + windowSize - 1;
      if end > |s| {
        end := |s|;
      }
      windows := windows + [Window(start, PySlice(s, start, end))];
      i := i + step;
    }
  }
}
