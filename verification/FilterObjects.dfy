/** The filter objects that create_filter allocates, behind one dispatch, and the value each stands for. */
module FilterObjects {
  import opened Iir
  import opened Medians
  import opened SignalFilters

  /** A pointer to a SignalFilter. A passthrough filter has no state. */
  datatype FilterRef =
    | PassthroughRef
    | EmaRef(ema: EmaFilter)
    | Lowpass1Ref(low: Lowpass1Filter)
    | MedianRef(median: MedianFilter)

  ghost function Objects(r: FilterRef): set<object> {
    match r
    case PassthroughRef => {}
    case EmaRef(f) => {f}
    case Lowpass1Ref(f) => {f}
    case MedianRef(f) => {f, f.window, f.scratch}
  }

  ghost predicate RefOk(r: FilterRef)
    reads Objects(r)
  {
    match r
    case PassthroughRef => true
    case EmaRef(f) => f.Valid()
    case Lowpass1Ref(f) => f.Valid()
    case MedianRef(f) => f.Valid() && f.windowSize > 0
  }

  /** The filter as a value; a median filter by its window contents. */
  ghost function ModelOf(r: FilterRef): (f: Filter)
    requires RefOk(r)
    reads Objects(r)
    ensures f.MedianOf? ==> f.window > 0
  {
    match r
    case PassthroughRef => Passthrough
    case EmaRef(f) => Ema(f.Model())
    case Lowpass1Ref(f) => Lowpass1(f.Model())
    case MedianRef(f) => MedianOf(f.windowSize, LastN(f.inputs, f.windowSize))
  }

  /** create_filter */
  method NewFilter(kind: nat, param: real, sampleHz: real) returns (r: FilterRef)
    ensures RefOk(r) && fresh(Objects(r))
    ensures ModelOf(r) == CreateFilter(kind, param, sampleHz)
  {
    if kind == 1 {
      var f := new EmaFilter(param);
      r := EmaRef(f);
    } else if kind == 3 {
      var f := new Lowpass1Filter(param, sampleHz);
      r := Lowpass1Ref(f);
    } else if kind == 2 {
      var window := 1;
      if 1.0 <= param <= 1024.0 {
        window := param.Floor;
      }
      var f := new MedianFilter(window);
      r := MedianRef(f);
    } else {
      r := PassthroughRef;
    }
  }

  /** The virtual call filter->apply(x), which updates the object. */
  method ApplyRef(r: FilterRef, x: real) returns (y: real)
    requires RefOk(r)
    modifies Objects(r)
    ensures RefOk(r) && (ModelOf(r), y) == ApplyFilter(old(ModelOf(r)), x)
  {
    match r
    case PassthroughRef => y := x;
    case EmaRef(f) => y := f.Apply(x);
    case Lowpass1Ref(f) => y := f.Apply(x);
    case MedianRef(f) =>
      hide Median;
      LastNStep(f.inputs, x, f.windowSize);
      y := f.Apply(x);
  }
}
