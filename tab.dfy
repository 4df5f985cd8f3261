/**
 * `Tab`: a tab and its pane in a tab set, of which the page activates the one
 * with a given id. Titles and contents are HTML or text; here they are
 * strings.
 */
module Tabs {

  class Tab {
    var active: bool
    const title: string
    const id: string
    const content: string

    /** `new Tab(title, id, content, active)` */
    constructor (title: string, id: string, content: string, active: bool)
      ensures this.title == title && this.id == id && this.content == content && this.active == active
    {
      this.title, this.id, this.content, this.active := title, id, content, active;
    }

    /** `new Tab(title, id, content)`: an inactive tab. */
    constructor Inactive(title: string, id: string, content: string)
      ensures this.title == title && this.id == id && this.content == content && !active
    {
      this.title, this.id, this.content, this.active := title, id, content, false;
    }

    /** `setActive(active)` */
    method SetActive(active: bool)
      modifies this
      ensures this.active == active
    {
      this.active := active;
    }

    /** `activate(tabs, id)`: makes active exactly the tabs with that id.
        Titles, ids and contents are fixed, and tabs outside `tabs` keep
        their flag. */
    static method Activate(tabs: seq<Tab>, id: string)
      modifies set t | t in tabs
      ensures forall t :: t in tabs ==> (t.active <==> t.id == id)
      ensures forall t, u :: t in tabs && u in tabs && t.active && u.active ==> t.id == u.id
    {
      for i := 0 to |tabs|
        invariant forall j :: 0 <= j < i ==> (tabs[j].active <==> tabs[j].id == id)
      {
        tabs[i].SetActive(tabs[i].id == id);
      }
    }

    /** `indexOf(tabs, id)`: the position of the first tab with that id, or -1
        when there is none. */
    static method IndexOf(tabs: seq<Tab>, id: string) returns (r: int)
      ensures -1 <= r < |tabs|
      ensures r >= 0 ==> tabs[r].id == id && forall j :: 0 <= j < r ==> tabs[j].id != id
      ensures r == -1 <==> forall j :: 0 <= j < |tabs| ==> tabs[j].id != id
    {
      for i := 0 to |tabs|
        invariant forall j :: 0 <= j < i ==> tabs[j].id != id
      {
        if id == tabs[i].id {
          return i;
        }
      }
      return -1;
    }
  }
}
