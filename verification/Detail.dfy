/** Cutting a rejection's detail on a rune boundary, and the row a rejection is stored as. */
module Detail {
  import opened Prelude
  import opened Utf8
  import opened Store

  const MAX_REJECTION_DETAIL: int := 500
  const MARKER: seq<byte> := [0x2E, 0x2E, 0x2E]

  /** How many characters of `s` fit in `budget` bytes. */
  function Fits(s: string, budget: nat): (k: nat)
    ensures k <= |s|
  {
    if s == [] || |EncodeChar(s[0])| > budget then 0 else 1 + Fits(s[1..], budget - |EncodeChar(s[0])|)
  }

  /** `truncateDetail` on the text itself: unchanged, or the longest prefix that fits and the marker. */
  function Truncated(s: string): string {
    if |Encode(s)| <= MAX_REJECTION_DETAIL then s else s[..Fits(s, MAX_REJECTION_DETAIL)] + "..."
  }

  function RejectionOf(publisherId: string, assertionId: string, merchantId: string, reason: string, detail: string): Rejection {
    Rejection(publisherId, NullIfEmpty(assertionId), NullIfEmpty(merchantId), reason, NullIfEmpty(Truncated(detail)))
  }

  /** A text column that takes NULL instead of an empty text. */
  predicate Holds(column: Option<string>, text: string) {
    if text == "" then column.None? else column == Some(text)
  }

  /** The row a refusal leaves: who, which assertion, which merchant and why, and the detail cut to size. */
  predicate Journals(row: Rejection, publisherId: string, assertionId: string, merchantId: string, reason: string, detail: string) {
    && row.publisherId == publisherId && row.reason == reason
    && Holds(row.assertionId, assertionId) && Holds(row.merchantId, merchantId)
    && Holds(row.detail, Truncated(detail))
  }

  lemma RejectionColumns(publisherId: string, assertionId: string, merchantId: string, reason: string, detail: string)
    ensures Journals(RejectionOf(publisherId, assertionId, merchantId, reason, detail), publisherId, assertionId, merchantId, reason, detail)
  {
    hide Truncated;
  }

  /** Where the byte loop stops: the last rune start at or before `cut`. */
  function StepBack(s: seq<byte>, cut: nat): (k: nat)
    requires cut < |s|
    ensures k <= cut
  {
    if cut > 0 && !RuneStart(s[cut]) then StepBack(s, cut - 1) else cut
  }

  method TruncateDetail(s: seq<byte>) returns (r: seq<byte>)
    ensures |s| <= MAX_REJECTION_DETAIL ==> r == s
    ensures |s| > MAX_REJECTION_DETAIL ==> r == s[..StepBack(s, MAX_REJECTION_DETAIL)] + MARKER
  {
    if |s| <= MAX_REJECTION_DETAIL {
      return s;
    }
    var cut := MAX_REJECTION_DETAIL;
    while cut > 0 && !RuneStart(s[cut])
      invariant 0 <= cut <= MAX_REJECTION_DETAIL
      invariant StepBack(s, cut) == StepBack(s, MAX_REJECTION_DETAIL)
    {
      cut := cut - 1;
    }
    r := s[..cut] + MARKER;
  }

  /** The prefix that fits is within budget, is the longest such, and is short of it by at most three bytes. */
  lemma {:induction false} FitsIsLongest(s: string, budget: nat)
    ensures |Encode(s[..Fits(s, budget)])| <= budget
    ensures Fits(s, budget) < |s| ==>
              |Encode(s[..Fits(s, budget) + 1])| > budget && |Encode(s[..Fits(s, budget)])| >= budget - 3
    ensures Fits(s, budget) == |s| <==> |Encode(s)| <= budget
  {
    if s != [] && |EncodeChar(s[0])| <= budget {
      FitsIsLongest(s[1..], budget - |EncodeChar(s[0])|);
      var k := Fits(s[1..], budget - |EncodeChar(s[0])|);
      assert s[..1 + k] == [s[0]] + s[1..][..k];
      EncodeAppend([s[0]], s[1..][..k]);
      if k < |s| - 1 {
        assert s[..2 + k] == [s[0]] + s[1..][..k + 1];
        EncodeAppend([s[0]], s[1..][..k + 1]);
      }
    } else if s != [] {
      assert s[..1] == [s[0]];
    }
  }

  /** A byte starts a rune exactly when it sits between two characters. */
  lemma {:induction false} RuneStarts(s: string, i: nat)
    requires i < |Encode(s)|
    ensures RuneStart(Encode(s)[i]) <==> |Encode(s[..Fits(s, i)])| == i
  {
    var head := EncodeChar(s[0]);
    EncodeCharStarts(s[0]);
    if i < |head| {
      assert s[..Fits(s, i)] == [];
    } else {
      RuneStarts(s[1..], i - |head|);
      var k := Fits(s[1..], i - |head|);
      assert s[..1 + k] == [s[0]] + s[1..][..k];
      EncodeAppend([s[0]], s[1..][..k]);
    }
  }

  /** More budget never fits fewer characters, and a prefix that fills its budget is a fixed point. */
  lemma {:induction false} FitsBetween(s: string, low: nat, high: nat)
    requires low <= high && |Encode(s[..Fits(s, high)])| <= low
    ensures Fits(s, low) == Fits(s, high)
  {
    if s != [] && |EncodeChar(s[0])| <= high {
      var k := Fits(s[1..], high - |EncodeChar(s[0])|);
      assert s[..1 + k] == [s[0]] + s[1..][..k];
      EncodeAppend([s[0]], s[1..][..k]);
      FitsBetween(s[1..], low - |EncodeChar(s[0])|, high - |EncodeChar(s[0])|);
    }
  }

  /** The byte loop stops exactly where the longest fitting prefix ends. */
  lemma {:induction false} StepBackFindsBoundary(s: string, cut: nat)
    requires cut < |Encode(s)|
    ensures StepBack(Encode(s), cut) == |Encode(s[..Fits(s, cut)])|
    decreases cut
  {
    RuneStarts(s, cut);
    FitsIsLongest(s, cut);
    if cut > 0 && !RuneStart(Encode(s)[cut]) {
      StepBackFindsBoundary(s, cut - 1);
      FitsBetween(s, cut - 1, cut);
    } else if cut == 0 {
      assert Fits(s, 0) == 0;
    }
  }

  /**
   Truncating the bytes of any text gives the bytes of its truncation: valid UTF-8 of at most
   503 bytes, unchanged when short, and otherwise the longest prefix within 500 bytes that ends
   between characters, found within three steps back, plus the marker.
   */
  lemma TruncateDetailOnText(s: string)
    ensures |Encode(s)| > MAX_REJECTION_DETAIL ==>
              Encode(Truncated(s)) == Encode(s)[..StepBack(Encode(s), MAX_REJECTION_DETAIL)] + MARKER
    ensures |Encode(s)| <= MAX_REJECTION_DETAIL ==> Truncated(s) == s
    ensures |Encode(Truncated(s))| <= MAX_REJECTION_DETAIL + 3
    ensures |Encode(s)| > MAX_REJECTION_DETAIL ==>
              exists k: nat :: k < |s| && Truncated(s) == s[..k] + "..."
                               && |Encode(s[..k])| <= MAX_REJECTION_DETAIL < |Encode(s[..k + 1])|
                               && |Encode(s[..k])| >= MAX_REJECTION_DETAIL - 3
  {
    if |Encode(s)| > MAX_REJECTION_DETAIL {
      var k := Fits(s, MAX_REJECTION_DETAIL);
      FitsIsLongest(s, MAX_REJECTION_DETAIL);
      StepBackFindsBoundary(s, MAX_REJECTION_DETAIL);
      assert s == s[..k] + s[k..];
      EncodeAppend(s[..k], s[k..]);
      EncodeAppend(s[..k], "...");
      MarkerBytes();
    }
  }

  lemma MarkerBytes()
    ensures Encode("...") == MARKER
  {
    assert "..."[1..] == ".." && ".."[1..] == "." && "."[1..] == "";
    assert EncodeChar('.') == [0x2E];
  }
}
