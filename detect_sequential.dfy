/**
 * The sequential object detector (the first detection script).
 *
 * It adds three empty result columns to the whole table and visits the rows in
 * order. A failed fetch, or a detector that raises, marks `yolo_class` 'ERROR' and
 * leaves the other two columns ''. Otherwise the detections are listed in three
 * lockstep lists — class name, confidence, box — and each list is stored joined
 * with ';'. The table is saved once, at the end.
 */
module DetectSequential {
  import opened Wrappers
  import opened Table

  /** A row of the table: its url and the three result columns. */
  datatype YoloRow = YoloRow(url: string, yoloClass: string, yoloConfidence: string, yoloBbox: string)

  /** One detection, already formatted: class name, three-decimal confidence and the
      printed list of rounded corner coordinates. */
  datatype Box = Box(name: string, conf: string, bbox: string)

  /** The detector: its boxes for an image, or None when it raises. */
  type Detector = Image -> Option<seq<Box>>

  const Sep: char := ';'
  const ErrorText: string := "ERROR"

  /** `sep.join(parts)`. */
  function Join(parts: seq<string>, sep: char): string
    decreases |parts|
  {
    if parts == [] then ""
    else if |parts| == 1 then parts[0]
    else parts[0] + [sep] + Join(parts[1..], sep)
  }

  /** `s.split(sep)`: the pieces between separators, always at least one. */
  function Split(s: string, sep: char): (parts: seq<string>)
    ensures |parts| >= 1
    decreases |s|
  {
    if s == [] then [""]
    else
      var rest := Split(s[1..], sep);
      if s[0] == sep then [""] + rest
      else [[s[0]] + rest[0]] + rest[1..]
  }

  /** A piece without separators splits to itself. */
  lemma {:induction false} SplitPlain(p: string, sep: char)
    requires sep !in p
    ensures Split(p, sep) == [p]
    decreases |p|
  {
    if p != [] {
      assert p[0] in p && [p[0]] + p[1..] == p;
      SplitPlain(p[1..], sep);
    }
  }

  /** Splitting stops at the first separator. */
  lemma {:induction false} SplitAtSep(p: string, sep: char, t: string)
    requires sep !in p
    ensures Split(p + [sep] + t, sep) == [p] + Split(t, sep)
    decreases |p|
  {
    if p == [] {
      assert ([] + [sep] + t)[1..] == t;
    } else {
      assert (p + [sep] + t)[1..] == p[1..] + [sep] + t;
      assert (p + [sep] + t)[0] == p[0] && p[0] in p && [p[0]] + p[1..] == p;
      SplitAtSep(p[1..], sep, t);
    }
  }

  /** Splitting a join gives the parts back, when there is at least one part and none
      holds the separator. */
  lemma {:induction false} SplitJoin(parts: seq<string>, sep: char)
    requires |parts| >= 1
    requires forall i :: 0 <= i < |parts| ==> sep !in parts[i]
    ensures Split(Join(parts, sep), sep) == parts
    decreases |parts|
  {
    if |parts| == 1 {
      SplitPlain(parts[0], sep);
    } else {
      SplitJoin(parts[1..], sep);
      SplitAtSep(parts[0], sep, Join(parts[1..], sep));
      assert parts == [parts[0]] + parts[1..];
    }
  }

  /** `df['yolo_class'] = ''` and the other two: every row starts with three empty
      result columns. */
  function Init(rows: seq<YoloRow>): (out: seq<YoloRow>)
    ensures |out| == |rows|
    ensures forall i :: 0 <= i < |out| ==> out[i] == YoloRow(rows[i].url, "", "", "")
  {
    seq(|rows|, i requires 0 <= i < |rows| => YoloRow(rows[i].url, "", "", ""))
  }

  /** The loop over `results.boxes`, filling the three lists in lockstep. */
  method Describe(boxes: seq<Box>) returns (classes: seq<string>, confs: seq<string>, bboxes: seq<string>)
    ensures |classes| == |boxes| && |confs| == |boxes| && |bboxes| == |boxes|
    ensures forall i :: 0 <= i < |boxes| ==>
      classes[i] == boxes[i].name && confs[i] == boxes[i].conf && bboxes[i] == boxes[i].bbox
  {
    classes, confs, bboxes := [], [], [];
    for i := 0 to |boxes|
      invariant |classes| == i && |confs| == i && |bboxes| == i
      invariant forall k :: 0 <= k < i ==>
        classes[k] == boxes[k].name && confs[k] == boxes[k].conf && bboxes[k] == boxes[k].bbox
    {
      classes := classes + [boxes[i].name];
      confs := confs + [boxes[i].conf];
      bboxes := bboxes + [boxes[i].bbox];
    }
  }

  function Names(boxes: seq<Box>): seq<string>
  {
    seq(|boxes|, i requires 0 <= i < |boxes| => boxes[i].name)
  }

  function Confs(boxes: seq<Box>): seq<string>
  {
    seq(|boxes|, i requires 0 <= i < |boxes| => boxes[i].conf)
  }

  function Bboxes(boxes: seq<Box>): seq<string>
  {
    seq(|boxes|, i requires 0 <= i < |boxes| => boxes[i].bbox)
  }

  /** One loop iteration on a row: 'ERROR' in `yolo_class` alone on a failed fetch or
      a raising detector, else the three joined lists. */
  function Annotate(r: YoloRow, fetched: Option<Image>, detect: Detector): YoloRow
  {
    if fetched.None? || detect(fetched.value).None? then r.(yoloClass := ErrorText)
    else
      var boxes := detect(fetched.value).value;
      r.(yoloClass := Join(Names(boxes), Sep),
         yoloConfidence := Join(Confs(boxes), Sep),
         yoloBbox := Join(Bboxes(boxes), Sep))
  }

  /** No formatted field of a box holds the separator. */
  predicate Plain(b: Box)
  {
    Sep !in b.name && Sep !in b.conf && Sep !in b.bbox
  }

  /** What one iteration leaves in a freshly initialised row: on failure only the
      'ERROR' mark; with no detections three empty columns; otherwise three columns
      that split back into the same number of fields, field i of each describing box i. */
  lemma AnnotateOutcome(url: string, fetched: Option<Image>, detect: Detector)
    ensures var r := Annotate(YoloRow(url, "", "", ""), fetched, detect);
      && r.url == url
      && ((fetched.None? || detect(fetched.value).None?) ==> r == YoloRow(url, ErrorText, "", ""))
      && ((fetched.Some? && detect(fetched.value) == Some([])) ==> r == YoloRow(url, "", "", ""))
      && ((&& fetched.Some? && detect(fetched.value).Some?
           && |detect(fetched.value).value| >= 1
           && forall b :: b in detect(fetched.value).value ==> Plain(b)) ==>
          && Split(r.yoloClass, Sep) == Names(detect(fetched.value).value)
          && Split(r.yoloConfidence, Sep) == Confs(detect(fetched.value).value)
          && Split(r.yoloBbox, Sep) == Bboxes(detect(fetched.value).value))
  {
    if fetched.Some? && detect(fetched.value).Some? {
      var boxes := detect(fetched.value).value;
      if |boxes| >= 1 && forall b :: b in boxes ==> Plain(b) {
        assert forall i :: 0 <= i < |boxes| ==> boxes[i] in boxes;
        SplitJoin(Names(boxes), Sep);
        SplitJoin(Confs(boxes), Sep);
        SplitJoin(Bboxes(boxes), Sep);
      }
    }
  }

  /** The main loop over the rows, in table order; `fetched[i]` is row i's fetch
      outcome. */
  method DetectAll(rows: array<YoloRow>, fetched: seq<Option<Image>>, detect: Detector)
    requires |fetched| == rows.Length
    modifies rows
    ensures forall i :: 0 <= i < rows.Length ==> rows[i] == Annotate(old(rows[i]), fetched[i], detect)
  {
    for idx := 0 to rows.Length
      invariant forall i :: 0 <= i < idx ==> rows[i] == Annotate(old(rows[i]), fetched[i], detect)
      invariant forall i :: idx <= i < rows.Length ==> rows[i] == old(rows[i])
    {
      var r := rows[idx];
      if fetched[idx].None? {
        rows[idx] := r.(yoloClass := ErrorText);
        continue;
      }
      var found := detect(fetched[idx].value);
      if found.None? {
        rows[idx] := r.(yoloClass := ErrorText);
        continue;
      }
      var classes, confs, bboxes := Describe(found.value);
      assert classes == Names(found.value) && confs == Confs(found.value) && bboxes == Bboxes(found.value);
      rows[idx] := r.(yoloClass := Join(classes, Sep), yoloConfidence := Join(confs, Sep),
                      yoloBbox := Join(bboxes, Sep));
    }
  }

  /** The whole script on the table in place: initialise, visit every row, and return
      the table the single output save writes. */
  method Run(rows: array<YoloRow>, fetched: seq<Option<Image>>, detect: Detector) returns (output: seq<YoloRow>)
    requires |fetched| == rows.Length
    modifies rows
    ensures |output| == rows.Length
    ensures forall i :: 0 <= i < |output| ==>
      output[i] == Annotate(YoloRow(old(rows[i]).url, "", "", ""), fetched[i], detect)
  {
    ghost var init := Init(rows[..]);
    for i := 0 to rows.Length
      invariant forall k :: 0 <= k < i ==> rows[k] == init[k]
      invariant forall k :: i <= k < rows.Length ==> rows[k] == old(rows[k])
    {
      rows[i] := YoloRow(rows[i].url, "", "", "");
    }
    DetectAll(rows, fetched, detect);
    output := rows[..];
  }
}
