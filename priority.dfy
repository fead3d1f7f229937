/**
  The priority scale shared by notifications and announcements: the rank
  table `{"Urgent": 4, "High": 3, "Normal": 2, "Low": 1}` looked up with a
  default of 2 for any other label.
*/
module Priority {

  /** `priority_order.get(p, 2)`. */
  function Rank(p: string): (r: int)
    ensures 1 <= r <= 4
    ensures r == 4 <==> p == "Urgent"
    ensures r == 3 <==> p == "High"
    ensures r == 1 <==> p == "Low"
    ensures r == 2 <==> p != "Urgent" && p != "High" && p != "Low"
  {
    if p == "Urgent" then 4
    else if p == "High" then 3
    else if p == "Normal" then 2
    else if p == "Low" then 1
    else 2
  }
}
