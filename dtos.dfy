/** The records exchanged by the HTTP endpoints (DTO/TaskItemDTO.cs). */
module Dtos {
  import opened Wrappers

  /** The body of a create request. A field the client left out is null, written `None`. */
  datatype CreateTaskDto = CreateTaskDto(title: Option<string>, description: Option<string>)

  /** A task as the API returns and broadcasts it; `createdAt` is a `DateTime` counted in ticks. */
  datatype TaskDto = TaskDto(id: int, title: string, description: string, createdAt: int)

  /** The answer of the summary endpoint. */
  datatype TaskSummaryDto = TaskSummaryDto(summary: string, totalTasks: int)

  /** The sort key `t => t.CreatedAt`. */
  function CreatedAtOf(t: TaskDto): int {
    t.createdAt
  }
}
