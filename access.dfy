/**
 * Role-based access to the main tabs. Three pieces of the page decide it:
 * - the role check in one of the two click listeners every tab button
 *   carries, which alerts and returns early for a restricted tab;
 * - the other click listener, installed by the main-tab setup, which opens
 *   the tab with no role check;
 * - the navigation bar, which the main view hides as a whole from a student.
 * A per-tab visibility pass exists as well but nothing calls it.
 * Roles and tab ids are the plain strings the page uses.
 */
module Access {

  const StudentRole := "student"
  const EnrollmentTab := "enrollment"

  /** The tabs the role check turns a student away from. */
  const RestrictedTabs: seq<string> := ["grades", "attendance", "reports", "manageUsers"]

  /** The role check of the click listener: false where it alerts and returns early. */
  predicate MayOpen(role: string, tab: string): (allowed: bool)
    ensures role != StudentRole ==> allowed
    ensures tab == EnrollmentTab ==> allowed
    ensures role == StudentRole && tab in RestrictedTabs ==> !allowed
  {
    !(role == StudentRole && tab in RestrictedTabs)
  }

  /** The per-tab visibility pass: a student is shown the enrollment button only, everyone else all buttons. */
  predicate IsVisible(role: string, tab: string): (visible: bool)
    ensures visible ==> MayOpen(role, tab)
    ensures role != StudentRole ==> visible
  {
    role != StudentRole || tab == EnrollmentTab
  }

  /** On enrollment and the four restricted tabs, the visibility pass and the role check agree. */
  lemma VisibilityAgreesWithGate(role: string, tab: string)
    requires tab == EnrollmentTab || tab in RestrictedTabs
    ensures IsVisible(role, tab) <==> MayOpen(role, tab)
  {
  }

  /** The main view shows the navigation bar, and with it every tab button, to every role but a student. */
  predicate NavShown(role: string): (shown: bool)
    ensures shown <==> forall tab :: MayOpen(role, tab)
  {
    assert role == StudentRole ==> !MayOpen(role, "grades");
    role != StudentRole
  }

  /** What one click on a tab button does: whether an alert appears and whether the tab opens. */
  datatype ClickEffect = ClickEffect(alerted: bool, opens: bool)

  /** The listener with the role check: alert and stop, or open the tab. */
  function GatedListener(role: string, tab: string): ClickEffect {
    if MayOpen(role, tab) then ClickEffect(false, true) else ClickEffect(true, false)
  }

  /** The listener of the main-tab setup: it always opens the tab. */
  function MainTabsListener(): ClickEffect {
    ClickEffect(false, true)
  }

  /**
   * A click as the page is wired: both listeners run, the gated one first
   * (it is attached when the script loads, the other when the page is
   * ready), and the early return of the first does not stop the second.
   */
  function ClickAsWritten(role: string, tab: string): (r: ClickEffect)
    ensures r.opens
    ensures r.alerted <==> !MayOpen(role, tab)
  {
    var first := GatedListener(role, tab);
    var second := MainTabsListener();
    ClickEffect(first.alerted || second.alerted, first.opens || second.opens)
  }

  /** A click as the role check intends it: a refused tab is not opened. */
  function ClickIntended(role: string, tab: string): (r: ClickEffect)
    ensures r.opens <==> MayOpen(role, tab)
    ensures r.alerted <==> !r.opens
  {
    GatedListener(role, tab)
  }

  /** As wired, a student who clicks the grades tab gets the alert and the tab opens anyway. */
  lemma RestrictedTabStillOpens()
    ensures ClickAsWritten(StudentRole, "grades") == ClickEffect(true, true)
    ensures ClickIntended(StudentRole, "grades") == ClickEffect(true, false)
  {
  }
}
