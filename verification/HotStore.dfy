/** The hot task store: task records and the dependency-governance
    collections (active children, remaining counters, cancel votes). */
module HotStore {
  import opened Common
  import opened Graph

  type Task = Node

  /** The caller-declared status vocabulary. */
  datatype Words = Words(success: set<string>, terminal: set<string>) {
    predicate Terminal(status: string) {
      status in terminal
    }

    predicate Success(status: string) {
      status in success
    }
  }

  datatype Record = Record(status: string, parent: Option<Task>, dependsOn: seq<Task>)

  /** The store as a value; every operation below is one atomic storage call. */
  datatype Hot = Hot(
    tasks: map<Task, Record>,
    active: map<Task, set<Task>>,
    remaining: map<Task, int>,
    votes: map<Task, set<Task>>)
  {
    function Status(t: Task): string {
      if t in tasks then tasks[t].status else ""
    }

    function DependsOn(t: Task): seq<Task> {
      if t in tasks then tasks[t].dependsOn else []
    }

    function Children(p: Task): set<Task> {
      if p in active then active[p] else {}
    }

    function Remaining(c: Task): int {
      if c in remaining then remaining[c] else 0
    }

    function Votes(c: Task): set<Task> {
      if c in votes then votes[c] else {}
    }

    function AddChild(p: Task, c: Task): Hot {
      this.(active := active[p := Children(p) + {c}])
    }

    function RemoveChild(p: Task, c: Task): Hot {
      if p in active then this.(active := active[p := active[p] - {c}]) else this
    }

    function SetRemaining(c: Task, n: int): Hot {
      this.(remaining := remaining[c := n])
    }

    function Decrement(c: Task): Hot {
      SetRemaining(c, Remaining(c) - 1)
    }

    function CastVote(c: Task, p: Task): Hot {
      this.(votes := votes[c := Votes(c) + {p}])
    }

    function ClearVotes(c: Task): Hot {
      this.(votes := votes - {c})
    }

    function WriteDependsOn(c: Task, parents: seq<Task>): Hot {
      if c in tasks then this.(tasks := tasks[c := tasks[c].(dependsOn := parents)]) else this
    }

    function WriteStatus(t: Task, status: string): Hot {
      if t in tasks then this.(tasks := tasks[t := tasks[t].(status := status)]) else this
    }
  }
}
