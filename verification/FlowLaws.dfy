/** Which colours a mode claims and which pay for a grant (WIFI/tx_msg.c), colour by colour. Mode 0 is
    SPRDWL_MODE_NONE: a colour of that owner is shared. */
module FlowLaws {
  import opened Common
  import opened FlowCredit

  /** The colour is shared, or its mode is closed. */
  predicate Free(owner: seq<Mode>, closed: seq<bool>, k: int)
    requires |closed| == MODE_MAX && 0 <= k < |owner|
  {
    owner[k] == 0 || closed[owner[k]]
  }

  /** A mode that owns a colour keeps everything as it is. Otherwise the colours of closed modes become
      shared and the first shared one becomes the mode's. */
  lemma ClaimLaw(owner: seq<Mode>, closed: seq<bool>, m: Mode, k: nat)
    requires |closed| == MODE_MAX && m != 0 && k < |owner|
    ensures m in owner ==> Claim(owner, closed, m)[k] == owner[k]
    ensures m !in owner ==>
              Claim(owner, closed, m)[k] ==
                if !Free(owner, closed, k) then owner[k]
                else if forall j :: 0 <= j < k ==> !Free(owner, closed, j) then m else 0
  {
    var o := Cleared(owner, closed);
    assert forall j :: 0 <= j < |o| ==> (o[j] == 0 <==> Free(owner, closed, j));
  }

  /** Shared colours pay in order: one that is used leaves the earlier shared ones empty. */
  lemma {:induction false} SharedInOrder(owner: seq<Mode>, flow: seq<int>, need: int, n: nat, j: nat, k: nat)
    requires j < k < n <= |owner| == |flow| && 0 <= need && forall i :: 0 <= i < |flow| ==> 0 <= flow[i]
    requires owner[j] == 0 && SharedGrant(owner, flow, need, n)[k] > 0
    ensures SharedGrant(owner, flow, need, n)[j] == flow[j]
    decreases n
  {
    hide Sum, Shared, InDebt, SharedGrant;
    SharedStep(owner, flow, need, n - 1);
    if k < n - 1 {
      SharedInOrder(owner, flow, need, n - 1, j, k);
    } else {
      NotDone(owner, flow, need, n - 1, j);
    }
  }

  /** While something is still needed, every shared colour before has given all it has. */
  lemma {:induction false} NotDone(owner: seq<Mode>, flow: seq<int>, need: int, n: nat, j: nat)
    requires j < n <= |owner| == |flow| && 0 <= need && forall i :: 0 <= i < |flow| ==> 0 <= flow[i]
    requires owner[j] == 0 && Sum(SharedGrant(owner, flow, need, n)) < need
    ensures SharedGrant(owner, flow, need, n)[j] == flow[j]
    decreases n
  {
    hide Sum, Shared, InDebt, SharedGrant;
    SharedStep(owner, flow, need, n - 1);
    if j < n - 1 {
      NotDone(owner, flow, need, n - 1, j);
    }
  }

  /** The grant colour by colour, while none is in debt: the mode's own colour gives as much as it can,
      a shared one at most what it has and only when the own and the earlier shared ones are used up,
      and no other mode's colour gives anything. */
  lemma GrantLaw(owner: seq<Mode>, flow: seq<int>, i: nat, data: int, k: nat)
    requires |owner| == |flow| == 4 && i < 4 && k < 4 && owner[i] != 0 && 0 < data <= 100
    requires forall j :: 0 <= j < 4 ==> 0 <= flow[j]
    ensures var r := Grant(owner, flow, i, data);
      && r[i] == (if flow[i] <= data then flow[i] else data)
      && 0 <= r[k] <= flow[k]
      && (k != i && owner[k] != 0 ==> r[k] == 0)
      && (k != i && r[k] > 0 ==>
            r[i] == flow[i] && forall j :: 0 <= j < k && j != i && owner[j] == 0 ==> r[j] == flow[j])
  {
    hide Sum, Shared, SharedGrant;
    if flow[i] < data {
      var need := data - flow[i];
      SharedGrantWithin(owner, flow, need, 4, k);
      var g := SharedGrant(owner, flow, need, 4);
      if k != i && g[k] > 0 {
        forall j | 0 <= j < k && j != i && owner[j] == 0 ensures g[j] == flow[j] {
          SharedInOrder(owner, flow, need, 4, j, k);
        }
      }
    }
  }

  /** What either function returns, in numbers: never more than a hundred, and -12 for no credits. */
  lemma ValueLaw(owner: seq<Mode>, flow: seq<int>, m: Mode, data: int)
    requires |owner| == |flow| == 4 && 0 < data
    requires forall j :: 0 <= j < 4 ==> 0 <= flow[j]
    ensures var own, shared := if m in owner then flow[IndexOf(owner, m)] else 0, Shared(owner, flow, 4);
      var wanted := if data <= 100 then data else 100;
      var n := if m !in owner || own + shared == 0 then -12
               else if own + shared <= wanted then own + shared else wanted;
      && Estimate(owner, flow, m, Min(data, MAX_BATCH)) == n
      && GetNum(owner, flow, m, Min(data, MAX_BATCH)) == n
  {
    hide Shared, GetNum;
    SharedNonNegative(owner, flow, 4);
    GetIsEstimate(owner, flow, m, Min(data, MAX_BATCH));
  }
}
