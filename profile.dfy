/** Device profiles of the panel driver (config.go): the grid geometry of
    each hardware generation, the quantities derived from it, the key
    renumbering of the legacy device, and the choice of the first profile
    whose device is present. */
module Profile {
  import opened Common

  /** One hardware generation. Go's `int` fields are modelled as unbounded
      integers; the geometry of every shipped profile is far from overflow. */
  datatype Config = Config(
    productId: uint16,
    columns: int,
    rows: int,
    spacer: int,      // pixels between two neighbouring buttons
    buttonSize: int,  // edge length of one square button, in pixels
    imageFormat: string,
    imageRotate: bool,
    convertKey: bool) // the legacy device numbers its columns right to left

  /** Go's zero value `Config{}`. */
  const NoConfig := Config(0, 0, 0, 0, 0, "", false, false)

  /** Number of buttons of the grid: one per (row, column) cell. */
  function NumButtons(c: Config): (n: int)
    ensures c.rows >= 0 && c.columns >= 0 ==> n >= 0
    ensures c.columns > 0 && c.rows > 0 ==> n >= c.rows && n >= c.columns
  {
    c.rows * c.columns
  }

  /** Width of the whole panel, spacers included: from the left edge of the
      first column to the right edge of the last one. */
  function PanelWidth(c: Config): (w: int)
    ensures w == (c.columns - 1) * (c.buttonSize + c.spacer) + c.buttonSize
  {
    c.columns * c.buttonSize + c.spacer * (c.columns - 1)
  }

  /** Height of the whole panel, spacers included. */
  function PanelHeight(c: Config): (h: int)
    ensures h == (c.rows - 1) * (c.buttonSize + c.spacer) + c.buttonSize
  {
    c.rows * c.buttonSize + c.spacer * (c.rows - 1)
  }

  /** Go's `%` on `int`: truncated division, so the remainder takes the sign
      of the dividend. It is characterised by divisibility and that sign. */
  function GoRem(a: int, m: int): (r: int)
    requires m != 0
    ensures (a - r) % m == 0
    ensures a >= 0 ==> 0 <= r < Abs(m)
    ensures a < 0 ==> r <= 0 && -r < Abs(m)
  {
    if a >= 0 then
      RemainderLeavesMultiple(a, m);
      a % m
    else
      NegatedRemainder(-a, m);
      -((-a) % m)
  }

  /** For `x >= 0`, `-x` and `-(x % m)` differ by a multiple of `m`. */
  lemma NegatedRemainder(x: int, m: int)
    requires m != 0 && x >= 0
    ensures (-x + x % m) % m == 0
  {
    var q := x / m;
    assert x == q * m + x % m;
    assert -x + x % m == (-q) * m;
    MultipleMod(-q, m);
  }

  lemma RemainderLeavesMultiple(x: int, m: int)
    requires m != 0
    ensures (x - x % m) % m == 0
    ensures x - x % m == (x / m) * m
  {
    MultipleMod(x / m, m);
  }

  lemma MultipleMod(q: int, m: int)
    requires m != 0
    ensures (q * m) % m == 0
  {
    DivModUnique(q * m, m, q, 0);
  }

  /** Button index translation applied before writing to a button. The
      legacy device (`convertKey`) numbers its columns from the right and
      starts at 1; every other device keeps the index. Go panics on a zero
      column count when it has to take the remainder. */
  function FixKey(c: Config, key: int): (r: int)
    requires c.convertKey ==> c.columns != 0
    ensures !c.convertKey ==> r == key
    ensures c.convertKey ==> r == 1 + key - 2 * GoRem(key, c.columns) + c.columns - 1
  {
    if c.convertKey then
      var keyCol := GoRem(key, c.columns);
      1 + ((key - keyCol) + ((c.columns - 1) - keyCol))
    else
      key
  }

  /** Every index below `NumButtons` lies in some row of the grid. */
  lemma KeyInGrid(c: Config, k: int)
    requires c.columns > 0 && 0 <= k < NumButtons(c)
    ensures 0 <= k / c.columns < c.rows
    ensures k == (k / c.columns) * c.columns + k % c.columns
  {
    var q, d := k / c.columns, k % c.columns;
    assert k == q * c.columns + d;
    if q >= c.rows {
      MulMonotone(c.rows, q, c.columns);
    } else if q < 0 {
      MulMonotone(q, -1, c.columns);
    }
  }

  /** Every (row, column) cell has a row-major index below `NumButtons`. */
  lemma CellInGrid(c: Config, row: int, col: int)
    requires 0 <= row < c.rows && 0 <= col < c.columns
    ensures 0 <= row * c.columns + col < NumButtons(c)
    ensures (row * c.columns + col) / c.columns == row
    ensures (row * c.columns + col) % c.columns == col
  {
    MulMonotone(row + 1, c.rows, c.columns);
    DivModUnique(row * c.columns + col, c.columns, row, col);
  }

  /** On the legacy device `FixKey(k) - 1` keeps the row of `k` and mirrors
      its column, so it stays inside the grid and mirroring twice is the
      identity. */
  lemma {:induction false} FixKeyMirrorsColumn(c: Config, k: int)
    requires c.convertKey && c.columns > 0 && 0 <= k < NumButtons(c)
    ensures 0 <= FixKey(c, k) - 1 < NumButtons(c)
    ensures (FixKey(c, k) - 1) / c.columns == k / c.columns
    ensures (FixKey(c, k) - 1) % c.columns == c.columns - 1 - k % c.columns
    ensures FixKey(c, FixKey(c, k) - 1) - 1 == k
  {
    KeyInGrid(c, k);
    var q, d := k / c.columns, k % c.columns;
    var m := FixKey(c, k) - 1;
    assert m == q * c.columns + (c.columns - 1 - d);
    CellInGrid(c, q, c.columns - 1 - d);
    assert FixKey(c, m) - 1 == q * c.columns + d;
  }

  /** On the legacy device `FixKey` maps `[0, NumButtons)` into `[1, NumButtons]`. */
  lemma FixKeyRange(c: Config)
    requires c.convertKey && c.columns > 0
    ensures forall k :: 0 <= k < NumButtons(c) ==> 1 <= FixKey(c, k) <= NumButtons(c)
  {
    forall k | 0 <= k < NumButtons(c) ensures 1 <= FixKey(c, k) <= NumButtons(c) {
      FixKeyMirrorsColumn(c, k);
    }
  }

  /** On the legacy device no two keys are sent to the same device index. */
  lemma FixKeyInjective(c: Config)
    requires c.convertKey && c.columns > 0
    ensures forall a, b :: 0 <= a < NumButtons(c) && 0 <= b < NumButtons(c) && FixKey(c, a) == FixKey(c, b) ==> a == b
  {
    forall a, b | 0 <= a < NumButtons(c) && 0 <= b < NumButtons(c) && FixKey(c, a) == FixKey(c, b)
      ensures a == b
    {
      FixKeyMirrorsColumn(c, a);
      FixKeyMirrorsColumn(c, b);
    }
  }

  /** The device indices that the keys `[0, NumButtons)` are sent to. */
  function DeviceIndices(c: Config): set<int>
    requires c.convertKey ==> c.columns != 0
  {
    set k | 0 <= k < NumButtons(c) :: FixKey(c, k)
  }

  /** On the legacy device the keys `[0, NumButtons)` reach exactly the device
      indices `[1, NumButtons]`: together with `FixKeyInjective`, a bijection. */
  lemma FixKeyOnto(c: Config)
    requires c.convertKey && c.columns > 0
    ensures forall j :: j in DeviceIndices(c) <==> 1 <= j <= NumButtons(c)
  {
    FixKeyRange(c);
    forall j | 1 <= j <= NumButtons(c) ensures j in DeviceIndices(c) {
      FixKeyMirrorsColumn(c, j - 1);
      var k := FixKey(c, j - 1) - 1;
      assert 0 <= k < NumButtons(c) && FixKey(c, k) == j;
    }
  }

  /** The legacy generation: 5 x 3 buttons of 72 px, BMP images, keys renumbered. */
  const Original := Config(0x60, 5, 3, 19, 72, "bmp", false, true)

  /** The second generation of the 15-key panel: JPEG images rotated by 180 degrees. */
  const Original2 := Config(0x80, 5, 3, 19, 72, "jpg", true, false)

  /** The panel with dials: 4 x 2 buttons of 120 px, JPEG images. */
  const Plus := Config(0x0084, 4, 2, 19, 120, "jpg", false, false)

  /** The probing order of `FindConnectedConfig`. */
  const AllConfigs: seq<Config> := [Original, Original2, Plus]

  lemma ProfileGeometry()
    ensures NumButtons(Original) == 15 && PanelWidth(Original) == 436 && PanelHeight(Original) == 254
    ensures NumButtons(Plus) == 8 && PanelWidth(Plus) == 537 && PanelHeight(Plus) == 259
  {
  }

  lemma FixKeyExamples()
    ensures FixKey(Plus, 5) == 5 && FixKey(Original2, 5) == 5
    ensures FixKey(Original, 4) == 1 && FixKey(Original, 5) == 10
  {
  }

  /** First-match search: the first candidate whose product id is reported
      present, or `(NoConfig, false)` when none is. `present` stands for the
      transport's enumeration ("at least one device with this product id"). */
  function FirstConnected(candidates: seq<Config>, present: int -> bool): (r: (Config, bool))
    ensures r.1 <==> exists i :: 0 <= i < |candidates| && present(candidates[i].productId)
    ensures r.1 ==> exists i :: 0 <= i < |candidates| && r.0 == candidates[i] && present(candidates[i].productId)
                                && forall j :: 0 <= j < i ==> !present(candidates[j].productId)
    ensures !r.1 ==> r.0 == NoConfig
  {
    if |candidates| == 0 then (NoConfig, false)
    else if present(candidates[0].productId) then (candidates[0], true)
    else
      var rest := FirstConnected(candidates[1..], present);
      assert forall i :: 1 <= i < |candidates| ==> candidates[i] == candidates[1..][i - 1];
      assert rest.1 ==> exists i :: 1 <= i < |candidates| && rest.0 == candidates[i] && present(candidates[i].productId)
                                    && forall j :: 0 <= j < i ==> !present(candidates[j].productId) by {
        if rest.1 {
          var i' :| 0 <= i' < |candidates| - 1 && rest.0 == candidates[1..][i'] && present(candidates[1..][i'].productId)
                    && forall j :: 0 <= j < i' ==> !present(candidates[1..][j].productId);
          assert forall j :: 0 <= j < i' + 1 ==> !present(candidates[j].productId) by {
            forall j | 0 <= j < i' + 1 ensures !present(candidates[j].productId) {
              if j > 0 { assert candidates[j] == candidates[1..][j - 1]; }
            }
          }
        }
      }
      rest
  }

  /** `FindConnectedConfig`: probe the known profiles in order. */
  function FindConnectedConfig(present: int -> bool): (r: (Config, bool))
    ensures r.1 ==> r.0 in AllConfigs && present(r.0.productId)
    ensures !r.1 ==> r.0 == NoConfig && forall c :: c in AllConfigs ==> !present(c.productId)
  {
    FirstConnected(AllConfigs, present)
  }

  /** The probing order decides: the legacy panel wins over the second
      generation, which wins over the panel with dials. */
  lemma FindConnectedOrder(present: int -> bool)
    ensures present(Original.productId) ==> FindConnectedConfig(present) == (Original, true)
    ensures !present(Original.productId) && present(Original2.productId) ==> FindConnectedConfig(present) == (Original2, true)
    ensures !present(Original.productId) && !present(Original2.productId) ==>
              FindConnectedConfig(present) == if present(Plus.productId) then (Plus, true) else (NoConfig, false)
  {
    var cs := AllConfigs;
    assert cs[1..] == [Original2, Plus] && cs[1..][1..] == [Plus] && cs[1..][1..][1..] == [];
    if !present(Original.productId) {
      assert FindConnectedConfig(present) == FirstConnected([Original2, Plus], present);
      if !present(Original2.productId) {
        assert FirstConnected([Original2, Plus], present) == FirstConnected([Plus], present);
      }
    }
  }
}
